/**
 The authentication header and the RPC header around it (auth/header.go, auth/rpc.go): a
 length-prefixed signed frame whose reader must stay aligned even when it rejects a frame.

 Signing, token parsing, verification and the clock are parameters.
 */
module AuthFrames {
  import opened Results
  import opened Sequences

  type Byte = b: int | 0 <= b < 256
  type Bytes = seq<Byte>

  const MAGIC: Bytes := [139, 143, 165]
  const VERSION: Byte := 1
  const RPC_MAGIC: Bytes := [224, 227, 155]
  const SIGNATURE_LEN := 256
  const UINT16 := 0x1_0000
  const UINT32 := 0x1_0000_0000
  const UINT64 := 0x1_0000_0000_0000_0000

  // ---------------------------------------------------------------- big-endian numbers

  function Pow256(k: nat): (p: nat)
    ensures p > 0
  {
    if k == 0 then 1 else Pow256(k - 1) * 256
  }

  lemma {:induction false} Widths()
    ensures Pow256(4) == UINT32 && Pow256(8) == UINT64
  {
    assert Pow256(2) == 0x1_0000;
    assert Pow256(4) == UINT32;
    assert Pow256(6) == 0x1_0000_0000_0000;
  }

  function BigEndian(n: nat, k: nat): (b: Bytes)
    ensures |b| == k
  {
    if k == 0 then [] else BigEndian(n / 256, k - 1) + [n % 256]
  }

  function FromBigEndian(b: Bytes): (n: nat)
    ensures n < Pow256(|b|)
  {
    if b == [] then 0 else FromBigEndian(b[..|b| - 1]) * 256 + b[|b| - 1]
  }

  lemma {:induction false} NumberRoundTrip(n: nat, k: nat)
    requires n < Pow256(k)
    ensures FromBigEndian(BigEndian(n, k)) == n
  {
    if k > 0 {
      NumberRoundTrip(n / 256, k - 1);
      assert BigEndian(n, k)[..k - 1] == BigEndian(n / 256, k - 1);
    }
  }

  lemma {:induction false} BigEndianOnto(b: Bytes)
    ensures BigEndian(FromBigEndian(b), |b|) == b
  {
    if b != [] {
      BigEndianOnto(b[..|b| - 1]);
      assert b == b[..|b| - 1] + [b[|b| - 1]];
    }
  }

  // ---------------------------------------------------------------- reading from a stream

  datatype Reason =
    | HeaderExpired | BadTimestamp(cause: IoError) | TokenRejected | BadToken | NoVerifier | BadSignature
    | TokenUnreadable(cause: IoError)

  datatype IoError = Eof | UnexpectedEof

  datatype ReadError =
    | Io(cause: IoError)
    | InvalidAuthHeader | UnknownAuthProtocol | ReadingBody | BadRPCHeader
    | Rejected(reason: Reason, payload: Bytes)

  /** The outcome of a read and what it left in the stream. */
  datatype Reading<+T> = Reading(result: Result<T, ReadError>, unread: Bytes)

  /** `io.ReadFull`: a short stream is consumed and reported. */
  function ReadFull(s: Bytes, n: nat): Reading<Bytes> {
    if n <= |s| then Reading(Ok(s[..n]), s[n..])
    else Reading(Err(Io(if s == [] then Eof else UnexpectedEof)), [])
  }

  function ReadLengthAndBytes(s: Bytes): Reading<Bytes> {
    var len := ReadFull(s, 4);
    if len.result.Err? then len else ReadFull(len.unread, FromBigEndian(len.result.value))
  }

  /** `eatBytesAndGetPayloadError`: skips to the payload and wraps the reason with it. */
  function EatAndReject(s: Bytes, n: nat, reason: Reason): Reading<Accepted> {
    if n > |s| then Reading(Err(ReadingBody), [])
    else
      var p := ReadLengthAndBytes(s[n..]);
      if p.result.Err? then Reading(Err(p.result.error), p.unread)
      else Reading(Err(Rejected(reason, p.result.value)), p.unread)
  }

  datatype Parsed = Identity(name: string) | NoIdentity | ParseFailed

  datatype Accepted = Accepted(sender: string, payload: Bytes)

  /** What a reader consults: its clock, the token parser and the senders' keys. */
  datatype Authority = Authority(
    expired: nat -> bool,
    parse: Bytes -> Parsed,
    hasVerifier: string -> bool,
    verify: (string, Bytes, Bytes) -> bool)

  /** The bytes a tee reader has copied. */
  function Copied(before: Bytes, after: Bytes): Bytes
    requires |after| <= |before|
  {
    before[..|before| - |after|]
  }

  /** The end of `readAuthHeaderV1`, from the token on; `teed` is the stream where the tee begins. */
  function ReadToken(a: Authority, sig: Bytes, teed: Bytes, s: Bytes, remaining: nat): Reading<Accepted>
    requires |s| <= |teed|
  {
    var token := ReadFull(s, remaining);
    if token.result.Err? then
      EatAndReject(token.unread, 0, TokenUnreadable(token.result.error.cause))
    else
      var parsed := a.parse(token.result.value);
      if parsed.ParseFailed? then EatAndReject(token.unread, 0, TokenRejected)
      else if parsed.NoIdentity? then EatAndReject(token.unread, 0, BadToken)
      else
        var p := ReadLengthAndBytes(token.unread);
        if p.result.Err? then Reading(Err(p.result.error), p.unread)
        else
          var payload := p.result.value;
          if !a.hasVerifier(parsed.name) then Reading(Err(Rejected(NoVerifier, payload)), p.unread)
          else if !a.verify(parsed.name, Copied(teed, p.unread), sig) then
            Reading(Err(Rejected(BadSignature, payload)), p.unread)
          else Reading(Ok(Accepted(parsed.name, payload)), p.unread)
  }

  /** The part of `readAuthHeaderV1` that begins with the timestamp, where the tee begins too. */
  function ReadStamp(a: Authority, sig: Bytes, teed: Bytes, remaining: nat): Reading<Accepted> {
    var ts := ReadFull(teed, 8);
    if ts.result.Err? then EatAndReject(ts.unread, remaining, BadTimestamp(ts.result.error.cause))
    else if a.expired(FromBigEndian(ts.result.value)) then EatAndReject(ts.unread, remaining, HeaderExpired)
    else ReadToken(a, sig, teed, ts.unread, remaining)
  }

  /** The bytes that are left of a header's length after the timestamp: the counter has 32 bits and wraps around. */
  function Remaining(len: nat): nat {
    (len - 8) % UINT32
  }

  /** `readAuthHeaderV1` */
  function ReadV1(a: Authority, s: Bytes): Reading<Accepted> {
    var len := ReadFull(s, 4);
    if len.result.Err? then Reading(Err(len.result.error), len.unread)
    else
      var sig := ReadFull(len.unread, SIGNATURE_LEN);
      if sig.result.Err? then Reading(Err(sig.result.error), sig.unread)
      else
        ReadStamp(a, sig.result.value, sig.unread, Remaining(FromBigEndian(len.result.value)))
  }

  function ReadAuthHeader(a: Authority, s: Bytes): Reading<Accepted> {
    var m := ReadFull(s, 3);
    if m.result.Err? then Reading(Err(m.result.error), m.unread)
    else if m.result.value != MAGIC then Reading(Err(InvalidAuthHeader), m.unread)
    else
      var v := ReadFull(m.unread, 1);
      if v.result.Err? then Reading(Err(v.result.error), v.unread)
      else if v.result.value != [VERSION] then Reading(Err(UnknownAuthProtocol), v.unread)
      else ReadV1(a, v.unread)
  }

  /** A request as the RPC layer sees it; unauthenticated requests have no sender. */
  datatype Request = Request(sender: Option<string>, payload: Bytes)

  /** What follows the flag of an RPC header. */
  function ReadBody(a: Authority, authenticated: bool, s: Bytes): Reading<Request> {
    if authenticated then
      var h := ReadAuthHeader(a, s);
      if h.result.Err? then Reading(Err(h.result.error), h.unread)
      else Reading(Ok(Request(Some(h.result.value.sender), h.result.value.payload)), h.unread)
    else
      var p := ReadLengthAndBytes(s);
      if p.result.Err? then Reading(Err(p.result.error), p.unread)
      else Reading(Ok(Request(None, p.result.value)), p.unread)
  }

  function ReadHeader(a: Authority, s: Bytes): Reading<Request> {
    var m := ReadFull(s, 3);
    if m.result.Err? then Reading(Err(m.result.error), m.unread)
    else if m.result.value != RPC_MAGIC then Reading(Err(BadRPCHeader), m.unread)
    else
      var flag := ReadFull(m.unread, 1);
      if flag.result.Err? then Reading(Err(flag.result.error), flag.unread)
      else ReadBody(a, flag.result.value == [1], flag.unread)
  }

  // ---------------------------------------------------------------- what is written

  /** `WriteLengthAndBytes`: the length is truncated to 32 bits without a check. */
  function LengthAndBytes(b: Bytes): Bytes {
    BigEndian(|b| % UINT32, 4) + b
  }

  /** The bytes that are signed. */
  function Signed(ts: nat, token: Bytes, payload: Bytes): Bytes {
    BigEndian(ts, 8) + token + LengthAndBytes(payload)
  }

  function Header(sig: Bytes, ts: nat, token: Bytes, payload: Bytes): Bytes {
    MAGIC + [VERSION] + BigEndian(|token| + 8, 4) + sig + Signed(ts, token, payload)
  }

  /** A written RPC header. */
  datatype Frame =
    | Plain(payload: Bytes)
    | Authenticated(sig: Bytes, ts: nat, token: Bytes, payload: Bytes)
  {
    predicate Valid() {
      && |payload| < UINT32
      && (Authenticated? ==> |sig| == SIGNATURE_LEN && ts < UINT64 && |token| < UINT16)
    }

    function Encode(): Bytes {
      match this
      case Plain(p) => RPC_MAGIC + [0] + LengthAndBytes(p)
      case Authenticated(sig, ts, token, p) => RPC_MAGIC + [1] + Header(sig, ts, token, p)
    }
  }

  /** The verdict on a written header, without looking at any stream. */
  function Verdict(a: Authority, sig: Bytes, ts: nat, token: Bytes, payload: Bytes): Result<Accepted, ReadError> {
    if a.expired(ts) then Err(Rejected(HeaderExpired, payload))
    else
      match a.parse(token)
      case ParseFailed => Err(Rejected(TokenRejected, payload))
      case NoIdentity => Err(Rejected(BadToken, payload))
      case Identity(name) =>
        if !a.hasVerifier(name) then Err(Rejected(NoVerifier, payload))
        else if !a.verify(name, Signed(ts, token, payload), sig) then Err(Rejected(BadSignature, payload))
        else Ok(Accepted(name, payload))
  }

  // ---------------------------------------------------------------- reading back what was written

  lemma {:induction false} LengthRoundTrip(n: nat)
    requires n < UINT32
    ensures FromBigEndian(BigEndian(n, 4)) == n
  {
    Widths();
    NumberRoundTrip(n, 4);
  }

  lemma {:induction false} ReadBackLength(b: Bytes, rest: Bytes)
    requires |b| < UINT32
    ensures ReadLengthAndBytes(LengthAndBytes(b) + rest) == Reading(Ok(b), rest)
  {
    assert |b| % UINT32 == |b|;
    LengthRoundTrip(|b|);
    Reattach(BigEndian(|b|, 4), b, rest);
  }

  /** The length prefix brings the bytes back exactly when their number fits in 32 bits. */
  lemma {:induction false} LengthPrefixIff(b: Bytes, rest: Bytes)
    ensures ReadLengthAndBytes(LengthAndBytes(b) + rest) == Reading(Ok(b), rest) <==> |b| < UINT32
  {
    if |b| < UINT32 {
      ReadBackLength(b, rest);
    } else {
      Widths();
      var n := |b| % UINT32;
      NumberRoundTrip(n, 4);
      assert LengthAndBytes(b) + rest == BigEndian(n, 4) + (b + rest);
    }
  }

  lemma {:induction false} EatWritten(skip: Bytes, payload: Bytes, rest: Bytes, reason: Reason)
    requires |payload| < UINT32
    ensures EatAndReject(skip + (LengthAndBytes(payload) + rest), |skip|, reason) ==
            Reading(Err(Rejected(reason, payload)), rest)
  {
    var body := LengthAndBytes(payload) + rest;
    assert (skip + body)[|skip|..] == body;
    ReadBackLength(payload, rest);
  }

  lemma {:induction false} RejectWritten(payload: Bytes, rest: Bytes, reason: Reason)
    requires |payload| < UINT32
    ensures EatAndReject(LengthAndBytes(payload) + rest, 0, reason) == Reading(Err(Rejected(reason, payload)), rest)
  {
    var body := LengthAndBytes(payload) + rest;
    assert body[0..] == body;
    ReadBackLength(payload, rest);
  }

  /** From the token on: the verifier is given the bytes that were signed. */
  lemma {:induction false} ReadTokenWritten(
    a: Authority, sig: Bytes, ts: nat, token: Bytes, payload: Bytes, rest: Bytes)
    requires |payload| < UINT32 && !a.expired(ts)
    ensures ReadToken(a, sig, Signed(ts, token, payload) + rest, token + (LengthAndBytes(payload) + rest), |token|)
            == Reading(Verdict(a, sig, ts, token, payload), rest)
  {
    match a.parse(token)
    case ParseFailed => RejectWritten(payload, rest, TokenRejected);
    case NoIdentity => RejectWritten(payload, rest, BadToken);
    case Identity(_) =>
      ReadBackLength(payload, rest);
  }

  lemma {:induction false} ReadStampWritten(
    a: Authority, sig: Bytes, ts: nat, token: Bytes, payload: Bytes, rest: Bytes)
    requires ts < UINT64 && |payload| < UINT32
    ensures ReadStamp(a, sig, Signed(ts, token, payload) + rest, |token|) ==
            Reading(Verdict(a, sig, ts, token, payload), rest)
  {
    var stamp, tail := BigEndian(ts, 8), token + (LengthAndBytes(payload) + rest);
    Widths();
    NumberRoundTrip(ts, 8);
    assert Signed(ts, token, payload) + rest == stamp + tail by {
      Shift(stamp, token, LengthAndBytes(payload), rest);
    }
    if a.expired(ts) {
      EatWritten(token, payload, rest, HeaderExpired);
    } else {
      ReadTokenWritten(a, sig, ts, token, payload, rest);
    }
  }

  /** The two fields before the signed bytes. */
  lemma {:induction false} ReadV1Prefix(a: Authority, len: nat, sig: Bytes, teed: Bytes)
    requires len < UINT32 && |sig| == SIGNATURE_LEN
    ensures ReadV1(a, BigEndian(len, 4) + sig + teed) == ReadStamp(a, sig, teed, Remaining(len))
  {
    LengthRoundTrip(len);
    Reattach(BigEndian(len, 4), sig, teed);
  }

  lemma {:induction false} ReadAuthPrefix(a: Authority, body: Bytes)
    ensures ReadAuthHeader(a, MAGIC + ([VERSION] + body)) == ReadV1(a, body)
  {}

  lemma {:induction false} Reassociate(a: Bytes, b: Bytes, c: Bytes, d: Bytes, e: Bytes, rest: Bytes)
    ensures a + b + c + d + e + rest == a + (b + (c + d + (e + rest)))
  {
    assert c + d + e + rest == c + d + (e + rest);
    assert a + b + c + d + e + rest == (a + b) + (c + d + (e + rest));
  }

  lemma {:induction false} NoWrap(n: nat)
    requires n < UINT16
    ensures Remaining(n + 8) == n
  {}

  lemma {:induction false} HeaderShape(sig: Bytes, ts: nat, token: Bytes, payload: Bytes, rest: Bytes)
    ensures Header(sig, ts, token, payload) + rest ==
            MAGIC + ([VERSION] + (BigEndian(|token| + 8, 4) + sig + (Signed(ts, token, payload) + rest)))
  {
    Reassociate(MAGIC, [VERSION], BigEndian(|token| + 8, 4), sig, Signed(ts, token, payload), rest);
  }

  /**
   Reading a written header consumes exactly that header, accepted or not, and its verdict is
   the one on the written token, payload and signed bytes.
   */
  lemma {:induction false} HeaderRoundTrip(a: Authority, sig: Bytes, ts: nat, token: Bytes, payload: Bytes, rest: Bytes)
    requires |sig| == SIGNATURE_LEN && ts < UINT64 && |token| < UINT16 && |payload| < UINT32
    ensures ReadAuthHeader(a, Header(sig, ts, token, payload) + rest) ==
            Reading(Verdict(a, sig, ts, token, payload), rest)
  {
    var len, teed := |token| + 8, Signed(ts, token, payload) + rest;
    calc {
      ReadAuthHeader(a, Header(sig, ts, token, payload) + rest);
      { HeaderShape(sig, ts, token, payload, rest); }
      ReadAuthHeader(a, MAGIC + ([VERSION] + (BigEndian(len, 4) + sig + teed)));
      { ReadAuthPrefix(a, BigEndian(len, 4) + sig + teed); }
      ReadV1(a, BigEndian(len, 4) + sig + teed);
      { ReadV1Prefix(a, len, sig, teed); }
      ReadStamp(a, sig, teed, Remaining(len));
      { NoWrap(|token|); }
      ReadStamp(a, sig, teed, |token|);
      { ReadStampWritten(a, sig, ts, token, payload, rest); }
      Reading(Verdict(a, sig, ts, token, payload), rest);
    }
  }

  /** What the RPC layer makes of one written frame. */
  function FrameVerdict(a: Authority, f: Frame): Result<Request, ReadError> {
    match f
    case Plain(p) => Ok(Request(None, p))
    case Authenticated(sig, ts, token, p) =>
      var v := Verdict(a, sig, ts, token, p);
      if v.Ok? then Ok(Request(Some(v.value.sender), v.value.payload)) else Err(v.error)
  }

  lemma {:induction false} ReadRpcPrefix(a: Authority, flag: Byte, body: Bytes)
    ensures ReadHeader(a, RPC_MAGIC + [flag] + body) == ReadBody(a, flag == 1, body)
  {
    assert RPC_MAGIC + [flag] + body == RPC_MAGIC + ([flag] + body);
    assert [flag] == [1] <==> flag == 1;
  }

  lemma {:induction false} FrameRoundTrip(a: Authority, f: Frame, rest: Bytes)
    requires f.Valid()
    ensures ReadHeader(a, f.Encode() + rest) == Reading(FrameVerdict(a, f), rest)
  {
    match f
    case Plain(p) => PlainRoundTrip(a, p, rest);
    case Authenticated(sig, ts, token, p) => AuthenticatedRoundTrip(a, sig, ts, token, p, rest);
  }

  lemma {:induction false} PlainRoundTrip(a: Authority, payload: Bytes, rest: Bytes)
    requires |payload| < UINT32
    ensures ReadHeader(a, Plain(payload).Encode() + rest) == Reading(Ok(Request(None, payload)), rest)
  {
    var body := LengthAndBytes(payload);
    Regroup(RPC_MAGIC, [0], body, rest);
    ReadRpcPrefix(a, 0, body + rest);
    ReadBackLength(payload, rest);
  }

  lemma {:induction false} AuthenticatedRoundTrip(
    a: Authority, sig: Bytes, ts: nat, token: Bytes, payload: Bytes, rest: Bytes)
    requires |sig| == SIGNATURE_LEN && ts < UINT64 && |token| < UINT16 && |payload| < UINT32
    ensures var f := Authenticated(sig, ts, token, payload);
            ReadHeader(a, f.Encode() + rest) == Reading(FrameVerdict(a, f), rest)
  {
    var f, body := Authenticated(sig, ts, token, payload), Header(sig, ts, token, payload);
    calc {
      ReadHeader(a, f.Encode() + rest);
      { Regroup(RPC_MAGIC, [1], body, rest); }
      ReadHeader(a, RPC_MAGIC + [1] + (body + rest));
      { ReadRpcPrefix(a, 1, body + rest); }
      ReadBody(a, true, body + rest);
      { HeaderRoundTrip(a, sig, ts, token, payload, rest); }
      Reading(FrameVerdict(a, f), rest);
    }
  }

  // ---------------------------------------------------------------- whole conversations

  function EncodeAll(frames: seq<Frame>): Bytes {
    if frames == [] then [] else frames[0].Encode() + EncodeAll(frames[1..])
  }

  /** Reading a header per authority: clock and keys may change from one header to the next. */
  function ReadAll(authorities: seq<Authority>, s: Bytes): (seq<Result<Request, ReadError>>, Bytes) {
    if authorities == [] then ([], s)
    else
      var r := ReadHeader(authorities[0], s);
      var (results, unread) := ReadAll(authorities[1..], r.unread);
      ([r.result] + results, unread)
  }

  /** The payload a result carries, be it a request or a rejection. */
  function PayloadOf(r: Result<Request, ReadError>): Option<Bytes> {
    match r
    case Ok(request) => Some(request.payload)
    case Err(Rejected(_, payload)) => Some(payload)
    case Err(_) => None
  }

  /** Accepted or rejected, a written frame's verdict carries its payload. */
  lemma {:induction false} VerdictCarriesPayload(a: Authority, f: Frame)
    ensures PayloadOf(FrameVerdict(a, f)) == Some(f.payload)
  {}

  /**
   However the frames are judged, reading as many headers as were written gives each frame its
   verdict and payload, in order, and leaves exactly what follows the last one.
   */
  lemma {:induction false} ConversationAligned(authorities: seq<Authority>, frames: seq<Frame>, rest: Bytes)
    requires |authorities| == |frames| && forall i | 0 <= i < |frames| :: frames[i].Valid()
    ensures var (results, unread) := ReadAll(authorities, EncodeAll(frames) + rest);
            && unread == rest && |results| == |frames|
            && (forall i | 0 <= i < |frames| :: results[i] == FrameVerdict(authorities[i], frames[i]))
            && (forall i | 0 <= i < |frames| :: PayloadOf(results[i]) == Some(frames[i].payload))
    decreases |frames|
  {
    if frames == [] {
      assert EncodeAll(frames) + rest == rest;
    } else {
      var tail := EncodeAll(frames[1..]) + rest;
      assert EncodeAll(frames) + rest == frames[0].Encode() + tail;
      FrameRoundTrip(authorities[0], frames[0], tail);
      VerdictCarriesPayload(authorities[0], frames[0]);
      ConversationAligned(authorities[1..], frames[1..], rest);
    }
  }

  // ---------------------------------------------------------------- attempts that failed

  /** A call of `WriteHeader`: a frame went out, or only the magic number and the flag before it failed. */
  datatype Attempt = Sent(frame: Frame) | GaveUp {
    predicate Valid() { Sent? ==> frame.Valid() }

    function Encode(): Bytes {
      if Sent? then frame.Encode() else RPC_MAGIC + [1]
    }
  }

  function EncodeAttempts(attempts: seq<Attempt>): Bytes {
    if attempts == [] then [] else attempts[0].Encode() + EncodeAttempts(attempts[1..])
  }

  /** The frames that went out. */
  function Frames(attempts: seq<Attempt>): seq<Frame> {
    if attempts == [] then []
    else (if attempts[0].Sent? then [attempts[0].frame] else []) + Frames(attempts[1..])
  }

  /** No failed attempt is followed by a frame. */
  predicate FailuresLast(attempts: seq<Attempt>) {
    forall i, j | 0 <= i < j < |attempts| && attempts[i].GaveUp? :: attempts[j].GaveUp?
  }

  /** The reader gives back the payload of every frame, in order. */
  ghost predicate PayloadsInOrder(authorities: seq<Authority>, frames: seq<Frame>, s: Bytes)
    requires |authorities| == |frames|
  {
    var results := ReadAll(authorities, s).0;
    |results| == |frames| && forall i | 0 <= i < |frames| :: PayloadOf(results[i]) == Some(frames[i].payload)
  }

  /** Every attempt begins with the RPC magic number. */
  lemma {:induction false} AttemptStarts(t: Attempt, rest: Bytes)
    ensures |t.Encode() + rest| >= 3 && (t.Encode() + rest)[..3] == RPC_MAGIC
  {
    assert t.Encode()[..3] == RPC_MAGIC;
    assert (t.Encode() + rest)[..3] == t.Encode()[..3];
  }

  /**
   What a failed attempt left behind is taken for the start of an authenticated frame: the next
   attempt is read as its header, is found invalid, and the reader stops three bytes into it.
   */
  lemma {:induction false} GaveUpThenAttempt(a: Authority, t: Attempt, rest: Bytes)
    ensures var next := t.Encode() + rest;
            ReadHeader(a, RPC_MAGIC + [1] + next) == Reading(Err(InvalidAuthHeader), next[3..])
  {
    var next := t.Encode() + rest;
    ReadRpcPrefix(a, 1, next);
    AttemptStarts(t, rest);
    assert RPC_MAGIC[0] != MAGIC[0];
    assert ReadFull(next, 3) == Reading(Ok(RPC_MAGIC), next[3..]);
  }

  lemma {:induction false} FramesLater(attempts: seq<Attempt>)
    ensures Frames(attempts) == [] <==> forall i | 0 <= i < |attempts| :: attempts[i].GaveUp?
  {
    if attempts != [] {
      FramesLater(attempts[1..]);
      assert forall i | 1 <= i < |attempts| :: attempts[i] == attempts[1..][i - 1];
    }
  }

  lemma {:induction false} FailuresLastCons(attempts: seq<Attempt>)
    requires attempts != []
    ensures FailuresLast(attempts) <==>
            FailuresLast(attempts[1..]) && (attempts[0].GaveUp? ==> Frames(attempts[1..]) == [])
  {
    FramesLater(attempts[1..]);
    assert forall i | 1 <= i < |attempts| :: attempts[i] == attempts[1..][i - 1];
  }

  /** A frame at the front is read, and the rest follows. */
  lemma {:induction false} InOrderCons(authorities: seq<Authority>, frames: seq<Frame>, rest: Bytes)
    requires frames != [] && |authorities| == |frames| && frames[0].Valid()
    ensures PayloadsInOrder(authorities, frames, frames[0].Encode() + rest) <==>
            PayloadsInOrder(authorities[1..], frames[1..], rest)
  {
    FrameRoundTrip(authorities[0], frames[0], rest);
    VerdictCarriesPayload(authorities[0], frames[0]);
    var first := ReadHeader(authorities[0], frames[0].Encode() + rest);
    var results := ReadAll(authorities, frames[0].Encode() + rest).0;
    var later := ReadAll(authorities[1..], rest).0;
    assert results == [first.result] + later;
    assert forall i | 1 <= i < |frames| :: frames[i] == frames[1..][i - 1];
    assert forall i | 1 <= i < |results| :: results[i] == later[i - 1];
  }

  /** A failed attempt at the front, with frames to come, loses the first of them. */
  lemma {:induction false} GaveUpFirst(authorities: seq<Authority>, attempts: seq<Attempt>, rest: Bytes)
    requires |attempts| > 1 && attempts[0].GaveUp? && |authorities| == |Frames(attempts)| > 0
    ensures !PayloadsInOrder(authorities, Frames(attempts), EncodeAttempts(attempts) + rest)
  {
    var later := EncodeAttempts(attempts[1..][1..]) + rest;
    var next := attempts[1];
    assert EncodeAttempts(attempts[1..]) + rest == next.Encode() + later;
    Reattach(RPC_MAGIC + [1], EncodeAttempts(attempts[1..]), rest);
    GaveUpThenAttempt(authorities[0], next, later);
    var s := EncodeAttempts(attempts) + rest;
    assert ReadAll(authorities, s).0[0] == Err(InvalidAuthHeader);
  }

  /**
   Over any sequence of attempts, reading as many headers as frames went out gives back all their
   payloads in order if and only if no failed attempt is followed by a frame.
   */
  lemma {:induction false} ConversationIff(authorities: seq<Authority>, attempts: seq<Attempt>, rest: Bytes)
    requires |authorities| == |Frames(attempts)| && forall i | 0 <= i < |attempts| :: attempts[i].Valid()
    ensures PayloadsInOrder(authorities, Frames(attempts), EncodeAttempts(attempts) + rest) <==> FailuresLast(attempts)
    decreases |attempts|
  {
    var s := EncodeAttempts(attempts) + rest;
    if Frames(attempts) == [] {
      FramesLater(attempts);
    } else {
      FailuresLastCons(attempts);
      var tail := EncodeAttempts(attempts[1..]) + rest;
      if attempts[0].Sent? {
        Reattach(attempts[0].Encode(), EncodeAttempts(attempts[1..]), rest);
        assert Frames(attempts)[1..] == Frames(attempts[1..]);
        InOrderCons(authorities, Frames(attempts), tail);
        ConversationIff(authorities[1..], attempts[1..], rest);
      } else {
        GaveUpFirst(authorities, attempts, rest);
      }
    }
  }

  // ---------------------------------------------------------------- nothing else is accepted

  lemma {:induction false} SplitRead(s: Bytes, n: nat)
    requires ReadFull(s, n).result.Ok?
    ensures var r := ReadFull(s, n); s == r.result.value + r.unread && |r.result.value| == n
  {}

  lemma {:induction false} LengthShape(s: Bytes)
    requires ReadLengthAndBytes(s).result.Ok?
    ensures var r := ReadLengthAndBytes(s); s == LengthAndBytes(r.result.value) + r.unread && |r.result.value| < UINT32
  {
    Widths();
    SplitRead(s, 4);
    var len := ReadFull(s, 4);
    var n := FromBigEndian(len.result.value);
    BigEndianOnto(len.result.value);
    SplitRead(len.unread, n);
    var r := ReadFull(len.unread, n);
    LengthJoin(n, r.result.value, r.unread);
  }

  lemma {:induction false} LengthJoin(n: nat, b: Bytes, rest: Bytes)
    requires |b| == n < UINT32
    ensures BigEndian(n, 4) + (b + rest) == LengthAndBytes(b) + rest
  {
    assert n % UINT32 == n;
    Reattach(BigEndian(n, 4), b, rest);
  }

  // ---------------------------------------------------------------- any stream

  /** The payload that an accepted or a rejected authentication header carries. */
  function Carried(r: Result<Accepted, ReadError>): Option<Bytes> {
    match r
    case Ok(accepted) => Some(accepted.payload)
    case Err(Rejected(_, payload)) => Some(payload)
    case Err(_) => None
  }

  lemma {:induction false} EatCarried(s: Bytes, n: nat, reason: Reason) returns (payload: Bytes)
    requires Carried(EatAndReject(s, n, reason).result).Some?
    ensures n <= |s| && |payload| < UINT32 && EatAndReject(s, n, reason).result == Err(Rejected(reason, payload))
    ensures s[n..] == LengthAndBytes(payload) + EatAndReject(s, n, reason).unread
  {
    payload := ReadLengthAndBytes(s[n..]).result.value;
    LengthShape(s[n..]);
  }

  /** What a stream holds from the token on, if anything is made of it. */
  lemma {:induction false} TokenCarried(a: Authority, sig: Bytes, teed: Bytes, s: Bytes, remaining: nat)
    returns (token: Bytes, payload: Bytes)
    requires |s| <= |teed| && Carried(ReadToken(a, sig, teed, s, remaining).result).Some?
    ensures |token| == remaining && |payload| < UINT32
    ensures Carried(ReadToken(a, sig, teed, s, remaining).result) == Some(payload)
    ensures s == token + (LengthAndBytes(payload) + ReadToken(a, sig, teed, s, remaining).unread)
  {
    var r := ReadFull(s, remaining);
    token := r.result.value;
    assert r.unread[0..] == r.unread;
    var parsed := a.parse(token);
    if parsed.Identity? {
      LengthShape(r.unread);
      payload := ReadLengthAndBytes(r.unread).result.value;
    } else {
      payload := EatCarried(r.unread, 0, if parsed.ParseFailed? then TokenRejected else BadToken);
    }
    SplitRead(s, remaining);
  }

  /** What a stream holds from the timestamp on, if anything is made of it. */
  lemma {:induction false} StampCarried(a: Authority, sig: Bytes, teed: Bytes, remaining: nat)
    returns (ts: nat, token: Bytes, payload: Bytes)
    requires Carried(ReadStamp(a, sig, teed, remaining).result).Some?
    ensures |token| == remaining && |payload| < UINT32 && ts < UINT64
    ensures teed == Signed(ts, token, payload) + ReadStamp(a, sig, teed, remaining).unread
  {
    Widths();
    StampLongEnough(a, sig, teed, remaining);
    var r := ReadFull(teed, 8);
    ts := FromBigEndian(r.result.value);
    BigEndianOnto(r.result.value);
    if a.expired(ts) {
      payload := EatCarried(r.unread, remaining, HeaderExpired);
      token := r.unread[..remaining];
      assert r.unread == token + r.unread[remaining..];
    } else {
      token, payload := TokenCarried(a, sig, teed, r.unread, remaining);
    }
    SplitRead(teed, 8);
    Shift(BigEndian(ts, 8), token, LengthAndBytes(payload), ReadStamp(a, sig, teed, remaining).unread);
  }

  /** A stream that ends in the timestamp carries nothing. */
  lemma {:induction false} StampLongEnough(a: Authority, sig: Bytes, teed: Bytes, remaining: nat)
    requires Carried(ReadStamp(a, sig, teed, remaining).result).Some?
    ensures |teed| >= 8
  {
    var r := ReadFull(teed, 8);
  }

  /** A version 1 header as it stands in a stream; the length need not be the one that a writer writes. */
  datatype Body = Body(len: nat, sig: Bytes, ts: nat, token: Bytes, payload: Bytes) {
    predicate Valid() {
      && len < UINT32 && |sig| == SIGNATURE_LEN && ts < UINT64
      && |token| == Remaining(len) && |payload| < UINT32
    }

    function Encode(): Bytes { BigEndian(len, 4) + sig + Signed(ts, token, payload) }
  }

  lemma {:induction false} LongEnough(a: Authority, s: Bytes)
    requires Carried(ReadV1(a, s).result).Some?
    ensures |s| >= 4 + SIGNATURE_LEN
  {}

  lemma {:induction false} V1Fields(s: Bytes) returns (len: nat, sig: Bytes)
    requires |s| >= 4 + SIGNATURE_LEN
    ensures len < UINT32 && |sig| == SIGNATURE_LEN && s == BigEndian(len, 4) + sig + s[4 + SIGNATURE_LEN..]
  {
    Widths();
    len, sig := FromBigEndian(s[..4]), s[4..4 + SIGNATURE_LEN];
    BigEndianOnto(s[..4]);
  }

  /** Every version 1 header that is accepted or rejected with a payload has the layout that is written. */
  lemma {:induction false} V1Carried(a: Authority, s: Bytes) returns (h: Body)
    requires Carried(ReadV1(a, s).result).Some?
    ensures h.Valid() && s == h.Encode() + ReadV1(a, s).unread
  {
    LongEnough(a, s);
    var len, sig := V1Fields(s);
    var teed := s[4 + SIGNATURE_LEN..];
    ReadV1Prefix(a, len, sig, teed);
    var ts, token, payload := StampCarried(a, sig, teed, Remaining(len));
    h := Body(len, sig, ts, token, payload);
    Reattach(BigEndian(len, 4) + sig, Signed(ts, token, payload), ReadV1(a, s).unread);
  }

  /** And every header with that layout is judged by its token, payload and signed bytes, and consumed exactly. */
  lemma {:induction false} V1Reads(a: Authority, h: Body, rest: Bytes)
    requires h.Valid()
    ensures ReadV1(a, h.Encode() + rest) == Reading(Verdict(a, h.sig, h.ts, h.token, h.payload), rest)
  {
    var signed := Signed(h.ts, h.token, h.payload);
    Reattach(BigEndian(h.len, 4) + h.sig, signed, rest);
    ReadV1Prefix(a, h.len, h.sig, signed + rest);
    ReadStampWritten(a, h.sig, h.ts, h.token, h.payload, rest);
  }

  lemma {:induction false} VerdictCarries(a: Authority, sig: Bytes, ts: nat, token: Bytes, payload: Bytes)
    ensures Carried(Verdict(a, sig, ts, token, payload)) == Some(payload)
  {}

  /**
   Whatever stream the version 1 reader accepts, it is a length, a signature and signed bytes laid
   out as the writer lays them out, and the verifier was shown exactly those bytes.
   */
  lemma {:induction false} AcceptedOnlyWhenSigned(a: Authority, s: Bytes) returns (h: Body)
    requires ReadV1(a, s).result.Ok?
    ensures h.Valid() && s == h.Encode() + ReadV1(a, s).unread && h.payload == ReadV1(a, s).result.value.payload
    ensures var sender := ReadV1(a, s).result.value.sender;
            && !a.expired(h.ts) && a.parse(h.token) == Identity(sender) && a.hasVerifier(sender)
            && a.verify(sender, Signed(h.ts, h.token, h.payload), h.sig)
  {
    h := V1Carried(a, s);
    V1Reads(a, h, ReadV1(a, s).unread);
  }

  /** Anything else than the magic number and the version is reported after three bytes, or four. */
  lemma {:induction false} AuthHeaderErrors(a: Authority, s: Bytes)
    ensures var r := ReadAuthHeader(a, s);
            && (|s| >= 3 && s[..3] != MAGIC ==> r == Reading(Err(InvalidAuthHeader), s[3..]))
            && (|s| >= 4 && s[..3] == MAGIC && s[3] != VERSION ==> r == Reading(Err(UnknownAuthProtocol), s[4..]))
            && (Carried(r.result).Some? ==> |s| >= 4 && s[..3] == MAGIC && s[3] == VERSION)
  {
    if |s| >= 4 {
      assert s[3..][..1] == [s[3]] && s[3..][1..] == s[4..];
    }
  }

  /** Anything else than the RPC magic number is reported after three bytes. */
  lemma {:induction false} RpcHeaderErrors(a: Authority, s: Bytes)
    ensures var r := ReadHeader(a, s);
            && (|s| >= 3 && s[..3] != RPC_MAGIC ==> r == Reading(Err(BadRPCHeader), s[3..]))
            && (PayloadOf(r.result).Some? ==> |s| >= 4 && s[..3] == RPC_MAGIC)
  {}

  /** An RPC header as it stands in a stream; any flag but one announces a plain request. */
  datatype Wire = PlainWire(flag: Byte, payload: Bytes) | AuthWire(body: Body) {
    predicate Valid() {
      if PlainWire? then flag != 1 && |payload| < UINT32 else body.Valid()
    }

    function Encode(): Bytes {
      if PlainWire? then RPC_MAGIC + [flag] + LengthAndBytes(payload)
      else RPC_MAGIC + [1] + (MAGIC + ([VERSION] + body.Encode()))
    }

    /** What the reader makes of it. */
    function Judged(a: Authority): Result<Request, ReadError> {
      if PlainWire? then Ok(Request(None, payload))
      else FrameVerdict(a, Authenticated(body.sig, body.ts, body.token, body.payload))
    }
  }

  lemma {:induction false} WireReads(a: Authority, f: Wire, rest: Bytes)
    requires f.Valid()
    ensures ReadHeader(a, f.Encode() + rest) == Reading(f.Judged(a), rest)
  {
    if f.PlainWire? {
      Regroup(RPC_MAGIC, [f.flag], LengthAndBytes(f.payload), rest);
      ReadRpcPrefix(a, f.flag, LengthAndBytes(f.payload) + rest);
      ReadBackLength(f.payload, rest);
    } else {
      var body := f.body.Encode();
      Regroup(RPC_MAGIC, [1], MAGIC + ([VERSION] + body), rest);
      AuthShape(body, rest);
      ReadRpcPrefix(a, 1, MAGIC + ([VERSION] + (body + rest)));
      ReadAuthPrefix(a, body + rest);
      V1Reads(a, f.body, rest);
    }
  }

  lemma {:induction false} AuthShape(body: Bytes, rest: Bytes)
    ensures MAGIC + ([VERSION] + body) + rest == MAGIC + ([VERSION] + (body + rest))
  {}

  /** A stream that opens with four given bytes. */
  lemma {:induction false} FourBytes(s: Bytes, magic: Bytes)
    requires |s| >= 4 && |magic| == 3 && s[..3] == magic
    ensures s == magic + [s[3]] + s[4..] && s == magic + ([s[3]] + s[4..])
  {}

  /** A stream of which anything is made holds an RPC header, and then what is left unread. */
  lemma {:induction false} WireCarried(a: Authority, s: Bytes) returns (f: Wire)
    ensures PayloadOf(ReadHeader(a, s).result).Some? ==> f.Valid() && s == f.Encode() + ReadHeader(a, s).unread
  {
    f := PlainWire(0, []);
    if PayloadOf(ReadHeader(a, s).result).None? {
      return;
    }
    RpcHeaderErrors(a, s);
    FourBytes(s, RPC_MAGIC);
    var flag, tail := s[3], s[4..];
    ReadRpcPrefix(a, flag, tail);
    if flag != 1 {
      LengthShape(tail);
      f := PlainWire(flag, ReadLengthAndBytes(tail).result.value);
      Regroup(RPC_MAGIC, [flag], LengthAndBytes(f.payload), ReadHeader(a, s).unread);
    } else {
      AuthHeaderErrors(a, tail);
      FourBytes(tail, MAGIC);
      ReadAuthPrefix(a, tail[4..]);
      var h := V1Carried(a, tail[4..]);
      f := AuthWire(h);
      AuthShape(h.Encode(), ReadHeader(a, s).unread);
      Regroup(RPC_MAGIC, [1], MAGIC + ([VERSION] + h.Encode()), ReadHeader(a, s).unread);
    }
  }

  /**
   The reader on every stream: it makes a request or a rejection of it if and only if the stream
   opens with an RPC header in the written layout, and then it judges that header, consumes exactly
   it and hands over its payload.
   */
  lemma {:induction false} ReadHeaderIff(a: Authority, s: Bytes)
    ensures PayloadOf(ReadHeader(a, s).result).Some? <==>
            exists f: Wire, rest: Bytes :: f.Valid() && s == f.Encode() + rest
    ensures forall f: Wire, rest: Bytes | f.Valid() && s == f.Encode() + rest ::
              ReadHeader(a, s) == Reading(f.Judged(a), rest)
  {
    forall f: Wire, rest: Bytes | f.Valid() && s == f.Encode() + rest
      ensures ReadHeader(a, s) == Reading(f.Judged(a), rest) && PayloadOf(f.Judged(a)).Some?
    {
      WireReads(a, f, rest);
      if f.AuthWire? {
        VerdictCarries(a, f.body.sig, f.body.ts, f.body.token, f.body.payload);
      }
    }
    var f := WireCarried(a, s);
  }

  // ---------------------------------------------------------------- the reader object

  /** A stream being consumed; `copied` is what a tee reader has collected since `StartTee`. */
  class Reader {
    var unread: Bytes
    var copied: Bytes

    constructor (s: Bytes)
      ensures unread == s
    {
      unread, copied := s, [];
    }

    method StartTee()
      modifies this`copied
      ensures copied == []
    {
      copied := [];
    }

    method Read(n: nat) returns (r: Result<Bytes, ReadError>)
      modifies this
      ensures Reading(r, unread) == ReadFull(old(unread), n)
      ensures copied + unread == old(copied) + old(unread)
    {
      var got := ReadFull(unread, n);
      assert unread == Copied(unread, got.unread) + got.unread;
      copied := copied + Copied(unread, got.unread);
      unread := got.unread;
      r := got.result;
    }

    method ReadPrefixed() returns (r: Result<Bytes, ReadError>)
      modifies this
      ensures Reading(r, unread) == ReadLengthAndBytes(old(unread))
      ensures copied + unread == old(copied) + old(unread)
    {
      var len :- Read(4);
      r := Read(FromBigEndian(len));
    }

    method EatAndGetPayloadError(n: nat, reason: Reason) returns (e: ReadError)
      modifies this
      ensures Reading(Err(e), unread) == EatAndReject(old(unread), n, reason)
    {
      var skipped := Read(n);
      if skipped.Err? {
        return ReadingBody;
      }
      var payload := ReadPrefixed();
      e := if payload.Err? then payload.error else Rejected(reason, payload.value);
    }

    method AuthHeaderV1(a: Authority) returns (r: Result<Accepted, ReadError>)
      modifies this
      ensures Reading(r, unread) == ReadV1(a, old(unread))
    {
      var allLen :- Read(4);
      var sig :- Read(SIGNATURE_LEN);
      StartTee();
      r := StampOn(a, sig, Remaining(FromBigEndian(allLen)));
    }

    /** The timestamp and what follows it, with an empty tee. */
    method StampOn(a: Authority, sig: Bytes, remaining: nat) returns (r: Result<Accepted, ReadError>)
      requires copied == []
      modifies this
      ensures Reading(r, unread) == ReadStamp(a, sig, old(unread), remaining)
    {
      ghost var teed := unread;
      var ts := Read(8);
      if ts.Err? {
        var e := EatAndGetPayloadError(remaining, BadTimestamp(ts.error.cause));
        return Err(e);
      }
      if a.expired(FromBigEndian(ts.value)) {
        var e := EatAndGetPayloadError(remaining, HeaderExpired);
        return Err(e);
      }

      assert copied + unread == teed;
      r := TokenOn(a, sig, remaining, teed);
    }

    /** The token, the payload and the signature check. */
    method TokenOn(a: Authority, sig: Bytes, remaining: nat, ghost teed: Bytes) returns (r: Result<Accepted, ReadError>)
      requires copied + unread == teed
      modifies this
      ensures |old(unread)| <= |teed| && Reading(r, unread) == ReadToken(a, sig, teed, old(unread), remaining)
    {
      var token := Read(remaining);
      if token.Err? {
        var e := EatAndGetPayloadError(0, TokenUnreadable(token.error.cause));
        return Err(e);
      }
      var parsed := a.parse(token.value);
      if !parsed.Identity? {
        var e := EatAndGetPayloadError(0, if parsed.ParseFailed? then TokenRejected else BadToken);
        return Err(e);
      }
      var payload :- ReadPrefixed();
      assert copied == Copied(teed, unread);
      if !a.hasVerifier(parsed.name) {
        return Err(Rejected(NoVerifier, payload));
      }
      if !a.verify(parsed.name, copied, sig) {
        return Err(Rejected(BadSignature, payload));
      }
      r := Ok(Accepted(parsed.name, payload));
    }

    method AuthHeader(a: Authority) returns (r: Result<Accepted, ReadError>)
      modifies this
      ensures Reading(r, unread) == ReadAuthHeader(a, old(unread))
    {
      var m :- Read(3);
      if m != MAGIC {
        return Err(InvalidAuthHeader);
      }
      var v :- Read(1);
      if v != [VERSION] {
        return Err(UnknownAuthProtocol);
      }
      r := AuthHeaderV1(a);
    }

    method RpcHeader(a: Authority) returns (r: Result<Request, ReadError>)
      modifies this
      ensures Reading(r, unread) == ReadHeader(a, old(unread))
    {
      var m :- Read(3);
      if m != RPC_MAGIC {
        return Err(BadRPCHeader);
      }
      var flag :- Read(1);
      if flag == [1] {
        var h :- AuthHeader(a);
        r := Ok(Request(Some(h.sender), h.payload));
      } else {
        var p :- ReadPrefixed();
        r := Ok(Request(None, p));
      }
    }
  }

  // ---------------------------------------------------------------- the writer object

  datatype WriteError = TokenTooLong | PayloadTooLarge | SigningFailed | NoToken

  class Writer {
    var written: Bytes

    constructor ()
      ensures written == []
    {
      written := [];
    }

    method Write(b: Bytes)
      modifies this
      ensures written == old(written) + b
    {
      written := written + b;
    }

    /** `WriteLengthAndBytes` */
    method WritePrefixed(b: Bytes)
      modifies this
      ensures written == old(written) + LengthAndBytes(b)
    {
      Write(BigEndian(|b| % UINT32, 4));
      Write(b);
      assert written == old(written) + LengthAndBytes(b);
    }

    /** `WriteTo`: nothing is written on an error, and the count returned leaves the four length bytes out. */
    method AuthHeader(token: Bytes, payload: Bytes, ts: nat, sign: Bytes -> Option<Bytes>)
      returns (r: Result<nat, WriteError>)
      requires ts < UINT64
      modifies this
      ensures r.Err? <==> |token| >= UINT16 || |payload| >= UINT32 || sign(Signed(ts, token, payload)).None?
      ensures r.Err? ==> written == old(written)
      ensures r.Ok? ==>
                var header := Header(sign(Signed(ts, token, payload)).value, ts, token, payload);
                written == old(written) + header && r.value == |header| - 4
    {
      var content := BigEndian(ts, 8);
      if |token| % UINT16 != |token| {
        return Err(TokenTooLong);
      }
      content := content + token;
      if |payload| % UINT32 != |payload| {
        return Err(PayloadTooLarge);
      }
      content := content + BigEndian(|payload|, 4);
      content := content + payload;
      assert content == Signed(ts, token, payload);
      var sig := sign(content);
      if sig.None? {
        return Err(SigningFailed);
      }

      Write(MAGIC);
      var n := |MAGIC|;
      Write([VERSION]);
      n := n + 1;
      Write(BigEndian(|token| + 8, 4));
      Write(sig.value);
      n := n + |sig.value|;
      Write(content);
      n := n + |content|;
      Reassociate(old(written), MAGIC + [VERSION], BigEndian(|token| + 8, 4), sig.value, content, []);
      r := Ok(n);
      assert written == old(written) + Header(sig.value, ts, token, payload);
    }

    /**
     `WriteHeader`: a request is written as one frame; when no token is at hand or the header
     cannot be built, the RPC magic and the flag have already gone out.
     */
    method RpcHeader(payload: Bytes, auth: bool, token: Option<Bytes>, ts: nat, sign: Bytes -> Option<Bytes>)
      returns (r: Result<(), WriteError>)
      requires ts < UINT64
      modifies this
      ensures !auth ==> r.Ok? && written == old(written) + Frame.Plain(payload).Encode()
      ensures auth && r.Ok? ==>
                token.Some? && sign(Signed(ts, token.value, payload)).Some? &&
                var sig := sign(Signed(ts, token.value, payload)).value;
                written == old(written) + Authenticated(sig, ts, token.value, payload).Encode()
      ensures r.Err? ==> written == old(written) + RPC_MAGIC + [1]
      ensures r.Err? <==>
                auth && (token.None? || |token.value| >= UINT16 || |payload| >= UINT32 ||
                         sign(Signed(ts, token.value, payload)).None?)
    {
      Write(RPC_MAGIC);
      if !auth {
        Write([0]);
        WritePrefixed(payload);
        Gather(old(written), RPC_MAGIC, [0], LengthAndBytes(payload));
        return Ok(());
      }
      Write([1]);
      if token.None? {
        return Err(NoToken);
      }
      var h := AuthHeader(token.value, payload, ts, sign);
      if h.Err? {
        return Err(h.error);
      }
      ghost var sig := sign(Signed(ts, token.value, payload)).value;
      Gather(old(written), RPC_MAGIC, [1], Header(sig, ts, token.value, payload));
      r := Ok(());
    }
  }
}
