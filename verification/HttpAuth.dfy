/** Shared-secret HMAC authentication of requests and of queue envelopes. The MAC
    is a parameter; Go strings and byte slices are both strings here, one
    character a byte. */
module HttpAuth {
  import opened Wrappers
  import opened Decimal
  import opened Text
  import opened Base64

  type Secret = seq<Byte>

  /** HMAC-SHA256(secret, message) */
  type Mac = (Secret, string) -> seq<Byte>

  const SECOND: int := 1_000_000_000
  const ENVELOPE_SENTINEL: string := "ENVELOPE\nQUEUE"

  datatype AuthError =
    MissingTimestamp | MissingSignature | MalformedTimestamp | MalformedSignature | TimestampSkew | SignatureMismatch

  // ----- canonical strings -----

  function Canonical(ts: int, verb: string, path: string, body: string): string {
    FormatInt(ts) + ("\n" + (verb + ("\n" + (path + ("\n" + body)))))
  }

  function EnvelopeText(ts: int, payload: string): string {
    FormatInt(ts) + ("\n" + (ENVELOPE_SENTINEL + ("\n" + payload)))
  }

  /** The MAC is fed piece by piece. */
  method SignRaw(mac: Mac, secret: Secret, ts: int, verb: string, path: string, body: string) returns (sum: seq<Byte>)
    ensures sum == mac(secret, Canonical(ts, verb, path, body))
    ensures sum == mac(secret, FormatInt(ts) + "\n" + verb + "\n" + path + "\n" + body)
  {
    var fed := FormatInt(ts);
    fed := fed + "\n";
    fed := fed + verb;
    fed := fed + "\n";
    fed := fed + path;
    fed := fed + "\n";
    fed := fed + body;
    assert fed == Canonical(ts, verb, path, body);
    return mac(secret, fed);
  }

  function Sign(mac: Mac, secret: Secret, ts: int, verb: string, path: string, body: string): string {
    EncodeStd(mac(secret, Canonical(ts, verb, path, body)))
  }

  function SignEnvelope(mac: Mac, secret: Secret, ts: int, payload: string): string {
    EncodeStd(mac(secret, EnvelopeText(ts, payload)))
  }

  // ----- clock skew, in Go's 64-bit durations -----

  /** time.Time.Sub saturates. */
  function Sub(t: int, u: int): (d: int)
    ensures MIN_INT64 <= d <= MAX_INT64
  {
    if t - u < MIN_INT64 then MIN_INT64 else if t - u > MAX_INT64 then MAX_INT64 else t - u
  }

  /** Negation wraps: the smallest duration has no positive counterpart. */
  function Negate(d: int): int {
    if d == MIN_INT64 then MIN_INT64 else -d
  }

  predicate SkewExceeded(now: int, ts: int, maxSkew: int) {
    var delta := Sub(now, ts * SECOND);
    (if delta < 0 then Negate(delta) else delta) > maxSkew
  }

  function Distance(now: int, ts: int): nat {
    if now >= ts * SECOND then now - ts * SECOND else ts * SECOND - now
  }

  /** The skew test measures the distance of the two instants exactly as long as it
      is below 2^63 ns. From there on the outcome no longer depends on it: a
      timestamp that far ahead always passes, one that far behind only under the
      largest skew there is. */
  lemma SkewTestExact(now: int, ts: int, maxSkew: int)
    requires 0 <= maxSkew <= MAX_INT64
    ensures
      var late := now - ts * 1_000_000_000;
      SkewExceeded(now, ts, maxSkew) <==>
        if -0x8000_0000_0000_0000 < late < 0x8000_0000_0000_0000 then late > maxSkew || -late > maxSkew
        else late > 0 && maxSkew < 0x7FFF_FFFF_FFFF_FFFF
    ensures Distance(now, ts) == if now >= ts * 1_000_000_000 then now - ts * 1_000_000_000
                                 else ts * 1_000_000_000 - now
  {
  }

  /** So a timestamp 300 years ahead is within a five-minute window. */
  lemma FarFutureWithinWindow()
    ensures !SkewExceeded(0, 300 * 365 * 24 * 3600, 300_000_000_000)
  {
  }

  // ----- verification -----

  function Verify(mac: Mac, secret: Secret, maxSkew: int, now: int, timestampHeader: string, signatureHeader: string,
                  verb: string, path: string, body: string): Result<(), AuthError> {
    if timestampHeader == "" then Err(MissingTimestamp)
    else if signatureHeader == "" then Err(MissingSignature)
    else
      match ParseInt(timestampHeader)
      case None => Err(MalformedTimestamp)
      case Some(ts) =>
        match DecodeStd(signatureHeader)
        case None => Err(MalformedSignature)
        case Some(provided) =>
          if SkewExceeded(now, ts, maxSkew) then Err(TimestampSkew)
          else if mac(secret, Canonical(ts, verb, path, body)) != provided then Err(SignatureMismatch)
          else Ok(())
  }

  function VerifyEnvelope(mac: Mac, secret: Secret, maxSkew: int, now: int, ts: int, payload: string, signature: string)
    : Result<(), AuthError> {
    if signature == "" then Err(MissingSignature)
    else
      match DecodeStd(signature)
      case None => Err(MalformedSignature)
      case Some(provided) =>
        if SkewExceeded(now, ts, maxSkew) then Err(TimestampSkew)
        else if mac(secret, EnvelopeText(ts, payload)) != provided then Err(SignatureMismatch)
        else Ok(())
  }

  /** Accepted is exactly what carries a timestamp in the window and, in base 64, the MAC of
      the very text that SignRaw feeds; of several faults the first one is reported. */
  lemma VerdictIs(mac: Mac, secret: Secret, maxSkew: int, now: int, header: string, signature: string,
                  verb: string, path: string, body: string)
    ensures
      var r := Verify(mac, secret, maxSkew, now, header, signature, verb, path, body);
      if header == "" then r == Err(MissingTimestamp)
      else if signature == "" then r == Err(MissingSignature)
      else if ParseInt(header).None? then r == Err(MalformedTimestamp)
      else if DecodeStd(signature).None? then r == Err(MalformedSignature)
      else
        var ts := ParseInt(header).value;
        var text := FormatInt(ts) + "\n" + verb + "\n" + path + "\n" + body;
        && (r == Err(TimestampSkew) <==> SkewExceeded(now, ts, maxSkew))
        && (r.Ok? <==> !SkewExceeded(now, ts, maxSkew) && DecodeStd(signature) == Some(mac(secret, text)))
        && (r.Err? ==> r.error in {TimestampSkew, SignatureMismatch})
  {
    if ParseInt(header).Some? {
      var ts := ParseInt(header).value;
      assert FormatInt(ts) + "\n" + verb + "\n" + path + "\n" + body == Canonical(ts, verb, path, body);
    }
    hide ParseInt, DecodeStd, SkewExceeded, Canonical, FormatInt;
  }

  /** The same for envelopes, whose text holds two fixed lines in place of verb and path. */
  lemma EnvelopeVerdictIs(mac: Mac, secret: Secret, maxSkew: int, now: int, ts: int, payload: string,
                          signature: string)
    ensures
      var r := VerifyEnvelope(mac, secret, maxSkew, now, ts, payload, signature);
      if signature == "" then r == Err(MissingSignature)
      else if DecodeStd(signature).None? then r == Err(MalformedSignature)
      else
        var text := FormatInt(ts) + "\n" + "ENVELOPE\nQUEUE" + "\n" + payload;
        && (r == Err(TimestampSkew) <==> SkewExceeded(now, ts, maxSkew))
        && (r.Ok? <==> !SkewExceeded(now, ts, maxSkew) && DecodeStd(signature) == Some(mac(secret, text)))
        && (r.Err? ==> r.error in {TimestampSkew, SignatureMismatch})
  {
    assert FormatInt(ts) + "\n" + "ENVELOPE\nQUEUE" + "\n" + payload == EnvelopeText(ts, payload);
    hide DecodeStd, SkewExceeded, EnvelopeText, FormatInt;
  }

  lemma FormatIntNotEmpty(ts: int)
    ensures FormatInt(ts) != ""
  {
  }

  /** What Sign produces, Verify accepts within the window, and rejects outside it. */
  lemma SignedVerifies(mac: Mac, secret: Secret, maxSkew: int, now: int, ts: int, verb: string, path: string,
                       body: string)
    requires MIN_INT64 <= ts <= MAX_INT64 && 0 <= maxSkew <= MAX_INT64 && Distance(now, ts) <= MAX_INT64
    requires mac(secret, Canonical(ts, verb, path, body)) != []
    ensures Verify(mac, secret, maxSkew, now, FormatInt(ts), Sign(mac, secret, ts, verb, path, body), verb, path, body)
            == if Distance(now, ts) <= maxSkew then Ok(()) else Err(TimestampSkew)
  {
    ParseFormat(ts);
    FormatIntNotEmpty(ts);
    StdRoundTrip(mac(secret, Canonical(ts, verb, path, body)));
    SkewTestExact(now, ts, maxSkew);
    hide DecodeStd, EncodeStd, ParseInt, FormatInt, Canonical, SkewExceeded, Distance;
  }

  lemma SignedEnvelopeVerifies(mac: Mac, secret: Secret, maxSkew: int, now: int, ts: int, payload: string)
    requires 0 <= maxSkew <= MAX_INT64 && Distance(now, ts) <= MAX_INT64
    requires mac(secret, EnvelopeText(ts, payload)) != []
    ensures VerifyEnvelope(mac, secret, maxSkew, now, ts, payload, SignEnvelope(mac, secret, ts, payload))
            == if Distance(now, ts) <= maxSkew then Ok(()) else Err(TimestampSkew)
  {
    StdRoundTrip(mac(secret, EnvelopeText(ts, payload)));
    SkewTestExact(now, ts, maxSkew);
    hide DecodeStd, EncodeStd, EnvelopeText, SkewExceeded, Distance;
  }

  // ----- one message, one meaning -----

  /** Two strings cut at their first newline agree on both halves. */
  lemma FirstLineUnique(a: string, b: string, x: string, y: string)
    requires '\n' !in a && '\n' !in b && a + ("\n" + x) == b + ("\n" + y)
    ensures a == b && x == y
  {
    var s := a + ("\n" + x);
    assert s[..|a|] == a && s[..|b|] == b;
    IndexOfIs(s, '\n', |a|);
    IndexOfIs(s, '\n', |b|);
    assert x == s[|a| + 1..] == y;
  }

  /** What the canonical string determines, whatever the path: the timestamp, a verb
      without a newline, and path and body up to the place where they meet. */
  lemma CanonicalEqual(ts: int, verb: string, path: string, body: string,
                       ts': int, verb': string, path': string, body': string)
    requires '\n' !in verb && '\n' !in verb'
    ensures Canonical(ts, verb, path, body) == Canonical(ts', verb', path', body')
            <==> ts == ts' && verb == verb' && path + ("\n" + body) == path' + ("\n" + body')
  {
    var rest, rest' := path + ("\n" + body), path' + ("\n" + body');
    FormatHasNo(ts, '\n');
    FormatHasNo(ts', '\n');
    hide FormatInt;
    if Canonical(ts, verb, path, body) == Canonical(ts', verb', path', body') {
      FirstLineUnique(FormatInt(ts), FormatInt(ts'), verb + ("\n" + rest), verb' + ("\n" + rest'));
      FormatInjective(ts, ts');
      FirstLineUnique(verb, verb', rest, rest');
    }
  }

  /** So it determines the request, for verbs and paths without a newline. */
  lemma CanonicalInjective(ts: int, verb: string, path: string, body: string,
                           ts': int, verb': string, path': string, body': string)
    requires '\n' !in verb && '\n' !in path && '\n' !in verb' && '\n' !in path'
    requires Canonical(ts, verb, path, body) == Canonical(ts', verb', path', body')
    ensures ts == ts' && verb == verb' && path == path' && body == body'
  {
    CanonicalEqual(ts, verb, path, body, ts', verb', path', body');
    FirstLineUnique(path, path', body, body');
  }

  lemma EnvelopeInjective(ts: int, payload: string, ts': int, payload': string)
    requires EnvelopeText(ts, payload) == EnvelopeText(ts', payload')
    ensures ts == ts' && payload == payload'
  {
    var rest, rest' := ENVELOPE_SENTINEL + ("\n" + payload), ENVELOPE_SENTINEL + ("\n" + payload');
    assert payload == rest[|ENVELOPE_SENTINEL| + 1..] && payload' == rest'[|ENVELOPE_SENTINEL| + 1..];
    hide FormatInt;
    FormatHasNo(ts, '\n');
    FormatHasNo(ts', '\n');
    FirstLineUnique(FormatInt(ts), FormatInt(ts'), rest, rest');
    FormatInjective(ts, ts');
  }

  /** When a request with a newline-free verb reads like an envelope. */
  lemma ReadsLikeEnvelope(ts: int, verb: string, path: string, body: string, ts': int, payload: string)
    requires '\n' !in verb
    ensures Canonical(ts, verb, path, body) == EnvelopeText(ts', payload)
            <==> ts == ts' && verb == "ENVELOPE" && path + ("\n" + body) == "QUEUE" + ("\n" + payload)
  {
    var rest, rest' := path + ("\n" + body), "QUEUE" + ("\n" + payload);
    assert ENVELOPE_SENTINEL + ("\n" + payload) == "ENVELOPE" + ("\n" + rest');
    FormatHasNo(ts, '\n');
    FormatHasNo(ts', '\n');
    if Canonical(ts, verb, path, body) == EnvelopeText(ts', payload) {
      FirstLineUnique(FormatInt(ts), FormatInt(ts'), verb + ("\n" + rest), "ENVELOPE" + ("\n" + rest'));
      FormatInjective(ts, ts');
      FirstLineUnique(verb, "ENVELOPE", rest, rest');
    }
  }

  /** A request whose path starts with '/' and whose verb holds no newline never
      reads like an envelope; its body and the rest of its path may be anything. */
  lemma DomainsSeparate(ts: int, verb: string, path: string, body: string, ts': int, payload: string)
    requires '\n' !in verb && path != "" && path[0] == '/'
    ensures Canonical(ts, verb, path, body) != EnvelopeText(ts', payload)
  {
    ReadsLikeEnvelope(ts, verb, path, body, ts', payload);
    assert (path + ("\n" + body))[0] == '/';
    assert ("QUEUE" + ("\n" + payload))[0] == 'Q';
  }

  /** Two different texts with the same MAC. */
  predicate Collide(mac: Mac, secret: Secret, x: string, y: string) {
    x != y && mac(secret, x) == mac(secret, y)
  }

  /** A signature is good for one request only: whatever Verify accepts it for has the
      timestamp, the verb, and the path and body up to where they meet, that it was made
      for, or else the two requests are a collision of the MAC. */
  lemma SignatureBindsRequest(mac: Mac, secret: Secret, maxSkew: int, now: int, header: string,
                              verb: string, path: string, body: string,
                              ts': int, verb': string, path': string, body': string)
    requires '\n' !in verb && '\n' !in verb'
    requires Verify(mac, secret, maxSkew, now, header, Sign(mac, secret, ts', verb', path', body'), verb, path,
                    body).Ok?
    ensures ParseInt(header).Some?
    ensures
      || (ParseInt(header).value == ts' && verb == verb' && path + ("\n" + body) == path' + ("\n" + body'))
      || Collide(mac, secret, Canonical(ParseInt(header).value, verb, path, body), Canonical(ts', verb', path', body'))
    ensures '\n' !in path && '\n' !in path' && path + ("\n" + body) == path' + ("\n" + body') ==>
              path == path' && body == body'
  {
    hide DecodeStd, EncodeStd, ParseInt, FormatInt, Canonical, SkewExceeded;
    StdRoundTrip(mac(secret, Canonical(ts', verb', path', body')));
    CanonicalEqual(ParseInt(header).value, verb, path, body, ts', verb', path', body');
    if '\n' !in path && '\n' !in path' && path + ("\n" + body) == path' + ("\n" + body') {
      FirstLineUnique(path, path', body, body');
    }
  }

  /** And an envelope's signature is good for no request at all, short of a collision. */
  lemma EnvelopeSignsNoRequest(mac: Mac, secret: Secret, maxSkew: int, now: int, header: string,
                               verb: string, path: string, body: string, ts': int, payload: string)
    requires '\n' !in verb && path != "" && path[0] == '/'
    ensures
      || Verify(mac, secret, maxSkew, now, header, SignEnvelope(mac, secret, ts', payload), verb, path, body).Err?
      || (ParseInt(header).Some?
          && Collide(mac, secret, Canonical(ParseInt(header).value, verb, path, body), EnvelopeText(ts', payload)))
  {
    StdRoundTrip(mac(secret, EnvelopeText(ts', payload)));
    if ParseInt(header).Some? {
      DomainsSeparate(ParseInt(header).value, verb, path, body, ts', payload);
    }
    hide DecodeStd, EncodeStd, ParseInt, Canonical, EnvelopeText, SkewExceeded;
  }

  // ----- several secrets -----

  datatype Request = Request(timestampHeader: string, signatureHeader: string, verb: string, path: string, body: string)

  datatype Outcome = Served | BadRequest | BodyTooLarge | Unauthorised(reason: AuthError)

  const MAX_BODY_BYTES := 65536

  function VerifyRequest(mac: Mac, secret: Secret, maxSkew: int, now: int, q: Request): Result<(), AuthError> {
    Verify(mac, secret, maxSkew, now, q.timestampHeader, q.signatureHeader, q.verb, q.path, q.body)
  }

  const DEFAULT_MAX_SKEW: int := 300 * SECOND

  /** The middleware: no configured secret lets everything through, unread. Otherwise the
      body must be readable and within the cap, and some secret must verify, unless
      enforcement is soft. Every slot is tried; the clock is read anew for each. */
  method MultiSecretMiddleware(mac: Mac, secrets: seq<Secret>, maxSkew: int, softEnforce: bool, now: Secret -> int,
                               q: Request, readable: bool)
    returns (r: Outcome)
    ensures
      var open := forall s | s in secrets :: s == [];
      && (r.BadRequest? <==> !open && !readable)
      && (r.BodyTooLarge? <==> !open && readable && |q.body| > 65536)
    ensures
      var skew := if maxSkew <= 0 then 300_000_000_000 else maxSkew;
      && (r.Served? <==>
            || (forall s | s in secrets :: s == [])
            || (readable && |q.body| <= 65536 &&
                (softEnforce
                 || exists s :: s in secrets && s != []
                      && Verify(mac, s, skew, now(s), q.timestampHeader, q.signatureHeader, q.verb, q.path,
                                q.body).Ok?)))
      && (r.Unauthorised? ==>
            exists s :: s in secrets && s != []
              && Verify(mac, s, skew, now(s), q.timestampHeader, q.signatureHeader, q.verb, q.path, q.body)
                 == Err(r.reason))
  {
    var skew := if maxSkew <= 0 then DEFAULT_MAX_SKEW else maxSkew;
    var active: seq<Secret> := [];
    for i := 0 to |secrets|
      invariant forall s :: s in active <==> s in secrets[..i] && s != []
    {
      assert forall s :: s in secrets[..i + 1] <==> s in secrets[..i] || s == secrets[i];
      if |secrets[i]| > 0 {
        active := active + [secrets[i]];
      }
    }
    assert secrets[..|secrets|] == secrets;
    if |active| == 0 {
      assert forall s | s in secrets :: s == [] by {
        assert forall s :: s !in active;
      }
      return Served;
    }
    assert active[0] in active && !forall s | s in secrets :: s == [];
    if !readable {
      return BadRequest;
    }
    if |q.body| > MAX_BODY_BYTES {
      return BodyTooLarge;
    }
    var lastErr: Option<AuthError> := None;
    var matched := false;
    for i := 0 to |active|
      invariant matched <==> exists s :: s in active[..i] && VerifyRequest(mac, s, skew, now(s), q).Ok?
      invariant i > 0 && !matched ==> lastErr.Some?
      invariant lastErr.Some? ==>
                  exists s :: s in active[..i] && VerifyRequest(mac, s, skew, now(s), q) == Err(lastErr.value)
    {
      assert forall s :: s in active[..i + 1] <==> s in active[..i] || s == active[i];
      var v := VerifyRequest(mac, active[i], skew, now(active[i]), q);
      if v.Ok? {
        matched := true;
      } else {
        lastErr := Some(v.error);
      }
    }
    assert active[..|active|] == active;
    if matched || softEnforce {
      return Served;
    }
    return Unauthorised(lastErr.value);
  }

  /** A scan job on the queue; `marshal` is its JSON form. */
  datatype ScanJob = ScanJob(fields: string, timestamp: int, signature: string)

  /** The queue's own check: no secret accepts every job, otherwise the signature is
      blanked and the rest re-serialised. */
  function VerifyJob(mac: Mac, marshal: ScanJob -> string, secret: Secret, maxSkew: int, now: int, job: ScanJob)
    : Result<(), AuthError> {
    if secret == [] then Ok(())
    else if job.signature == "" then Err(MissingSignature)
    else VerifyEnvelope(mac, secret, maxSkew, now, job.timestamp, marshal(job.(signature := "")), job.signature)
  }

  /** Enqueue stamps and signs a job when a secret is configured. */
  function SignJob(mac: Mac, marshal: ScanJob -> string, secret: Secret, ts: int, job: ScanJob): ScanJob {
    if secret == [] then job
    else
      var stamped := job.(timestamp := ts, signature := "");
      stamped.(signature := SignEnvelope(mac, secret, ts, marshal(stamped)))
  }

  /** A job signed on one side of the queue is accepted on the other within the window. */
  lemma SignedJobVerifies(mac: Mac, marshal: ScanJob -> string, secret: Secret, maxSkew: int, now: int, ts: int,
                          job: ScanJob)
    requires 0 <= maxSkew <= MAX_INT64 && -maxSkew <= now - ts * 1_000_000_000 <= maxSkew
    requires forall text :: mac(secret, text) != []
    ensures VerifyJob(mac, marshal, secret, maxSkew, now, SignJob(mac, marshal, secret, ts, job)).Ok?
  {
    if secret != [] {
      var stamped := job.(timestamp := ts, signature := "");
      SignedEnvelopeVerifies(mac, secret, maxSkew, now, ts, marshal(stamped));
      StdRoundTrip(mac(secret, EnvelopeText(ts, marshal(stamped))));
    }
  }

  /** And what is accepted under a secret is a job that somebody signed with it, up to its
      signature field: its own timestamp and content, short of a collision of the MAC. */
  lemma JobSignatureBinds(mac: Mac, marshal: ScanJob -> string, secret: Secret, maxSkew: int, now: int, job: ScanJob,
                          ts: int, payload: string)
    requires secret != [] && job.signature == SignEnvelope(mac, secret, ts, payload)
    requires VerifyJob(mac, marshal, secret, maxSkew, now, job).Ok?
    ensures
      var content := marshal(job.(signature := ""));
      || (job.timestamp == ts && content == payload)
      || Collide(mac, secret, EnvelopeText(job.timestamp, content), EnvelopeText(ts, payload))
    ensures !SkewExceeded(now, job.timestamp, maxSkew)
  {
    StdRoundTrip(mac(secret, EnvelopeText(ts, payload)));
    var content := marshal(job.(signature := ""));
    if EnvelopeText(job.timestamp, content) == EnvelopeText(ts, payload) {
      EnvelopeInjective(job.timestamp, content, ts, payload);
    }
    hide DecodeStd, EncodeStd, EnvelopeText, SkewExceeded;
  }

  /** Without a secret jobs go as they are and every job is accepted; with one, a job is stamped
      and signed and none is accepted that is not. */
  lemma UnsignedJobs(mac: Mac, marshal: ScanJob -> string, secret: Secret, maxSkew: int, now: int, job: ScanJob,
                     ts: int)
    ensures secret == [] ==> SignJob(mac, marshal, secret, ts, job) == job
    ensures secret != [] ==>
              var text := FormatInt(ts) + "\n" + "ENVELOPE\nQUEUE" + "\n" + marshal(ScanJob(job.fields, ts, ""));
              SignJob(mac, marshal, secret, ts, job) == ScanJob(job.fields, ts, EncodeStd(mac(secret, text)))
    ensures secret == [] ==> VerifyJob(mac, marshal, secret, maxSkew, now, job).Ok?
    ensures secret != [] && job.signature == "" ==>
              VerifyJob(mac, marshal, secret, maxSkew, now, job) == Err(MissingSignature)
  {
    var text := marshal(ScanJob(job.fields, ts, ""));
    assert FormatInt(ts) + "\n" + "ENVELOPE\nQUEUE" + "\n" + text == EnvelopeText(ts, text);
    hide FormatInt, EncodeStd;
  }

  /** The worker's walk over the slots reaches the same verdict as the middleware's. */
  method VerifyEnvelopeMultiSecret(mac: Mac, marshal: ScanJob -> string, secrets: seq<Secret>, maxSkew: int,
                                   now: Secret -> int, job: ScanJob)
    returns (r: Result<(), AuthError>)
    ensures r.Ok? <==>
              || (forall s | s in secrets :: s == [])
              || (exists s :: s in secrets && s != [] && VerifyJob(mac, marshal, s, maxSkew, now(s), job).Ok?)
    ensures r.Err? ==>
              exists s :: s in secrets && s != [] && VerifyJob(mac, marshal, s, maxSkew, now(s), job) == Err(r.error)
  {
    if |secrets| == 0 {
      return VerifyJob(mac, marshal, [], maxSkew, now([]), job);
    }
    var matched := false;
    var lastErr: Option<AuthError> := None;
    for i := 0 to |secrets|
      invariant matched <==>
                exists s :: s in secrets[..i] && s != [] && VerifyJob(mac, marshal, s, maxSkew, now(s), job).Ok?
      invariant !matched && lastErr.None? ==> forall k | 0 <= k < i :: secrets[k] == []
      invariant lastErr.Some? ==>
                  exists s :: s in secrets[..i] && s != []
                      && VerifyJob(mac, marshal, s, maxSkew, now(s), job) == Err(lastErr.value)
    {
      assert forall s :: s in secrets[..i + 1] <==> s in secrets[..i] || s == secrets[i];
      var s := secrets[i];
      if |s| == 0 {
        assert s == [];
        continue;
      }
      var v := VerifyJob(mac, marshal, s, maxSkew, now(s), job);
      if v.Ok? {
        matched := true;
      } else {
        lastErr := Some(v.error);
      }
    }
    assert secrets[..|secrets|] == secrets;
    if matched {
      return Ok(());
    }
    return if lastErr.Some? then Err(lastErr.value) else Ok(());
  }
}
