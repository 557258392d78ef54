/** The loopback companion: bootstrap token, handshake, session tokens and their expiry, over interleaved connections. */
module SessionProtocol {
  import opened Text

  type Token = string
  type ConnId = nat

  const HANDSHAKE_MAX_SKEW_MS: nat := 120_000
  const SESSION_TTL_MS: nat := 30 * 60 * 1000
  const PROTOCOL_MAJOR: nat := 1

  datatype Session = Session(token: Token, expiresAtMs: nat, extensionId: string)

  /** A handshake request; `nonceLen` is the nonce's length in bytes. */
  datatype Handshake = Handshake(protocolVersion: string, extensionId: string, nonceLen: nat, requestedAtMs: nat)

  // ----- Checks -----

  /** The digits before the first dot, as an unsigned 32-bit number; Rust's parser takes a leading plus sign. */
  function ParseMajor(version: string): Option<nat> {
    var head := version[..IndexOf(version, '.')];
    var digits := if head != [] && head[0] == '+' then head[1..] else head;
    if digits != [] && AllDigits(digits) && Value(digits) < 0x1_0000_0000 then Some(Value(digits)) else None
  }

  predicate VersionsCompatible(version: string) {
    ParseMajor(version) == Some(PROTOCOL_MAJOR)
  }

  /** One leading plus sign never matters to the version check: `+1.0` passes it as `1.0` does. */
  lemma LeadingPlus(version: string)
    requires !StartsWith(version, "+")
    ensures VersionsCompatible("+" + version) <==> VersionsCompatible(version)
  {
    var k := IndexOf(version, '.');
    var plus := "+" + version;
    assert plus[1..] == version && IndexOf(plus, '.') == k + 1;
    assert plus[..k + 1][1..] == version[..k];
    assert k > 0 ==> version[..k][0] == version[0] && version[..1] == [version[0]];
  }

  lemma PlusOneAccepted()
    ensures VersionsCompatible("+1.0")
  {
    assert "1.0"[..1] == "1" && IndexOf("1.0", '.') == 1 && Value("1") == 1;
    LeadingPlus("1.0");
    assert "+" + "1.0" == "+1.0";
  }

  function AbsDiff(a: nat, b: nat): nat {
    if a <= b then b - a else a - b
  }

  predicate ExtensionIdAllowed(pin: Option<string>, release: bool, extensionId: string) {
    extensionId != "" && (if pin.Some? then pin.value == extensionId else !release)
  }

  /** An absent origin header is let through. */
  predicate OriginAllowed(pin: Option<string>, release: bool, origin: Option<string>) {
    || origin.None?
    || origin.value == "http://127.0.0.1" || origin.value == "https://127.0.0.1"
    || (if pin.Some? then origin.value == "chrome-extension://" + pin.value
        else !release && StartsWith(origin.value, "chrome-extension://"))
  }

  predicate Accepts(pin: Option<string>, release: bool, req: Handshake, now: nat) {
    && VersionsCompatible(req.protocolVersion)
    && req.nonceLen >= 16 && req.extensionId != ""
    && AbsDiff(req.requestedAtMs, now) <= HANDSHAKE_MAX_SKEW_MS
    && ExtensionIdAllowed(pin, release, req.extensionId)
  }

  /** `retain`: the sessions that have not expired at `now`. */
  function Purged(sessions: seq<Session>, now: nat): (r: seq<Session>)
    ensures forall s :: s in r <==> s in sessions && s.expiresAtMs > now
  {
    if sessions == [] then []
    else
      var rest := Purged(sessions[1..], now);
      if sessions[0].expiresAtMs > now then [sessions[0]] + rest else rest
  }

  ghost predicate Live(sessions: seq<Session>, token: Token, now: nat) {
    exists s :: s in sessions && s.token == token && s.expiresAtMs > now
  }

  // ----- The shared state, operation by operation -----

  class CompanionState {
    var sessions: seq<Session>
    var bootstrapToken: Token
    var allowedExtensionId: Option<string>
    const release: bool

    constructor (bootstrapToken: Token, pin: Option<string>, release: bool)
      ensures sessions == [] && this.bootstrapToken == bootstrapToken
      ensures allowedExtensionId == pin && this.release == release
    {
      sessions, this.bootstrapToken, allowedExtensionId := [], bootstrapToken, pin;
      this.release := release;
    }

    method PurgeExpiredSessions(now: nat)
      modifies this`sessions
      ensures sessions == Purged(old(sessions), now)
    {
      var kept := [];
      for i := 0 to |sessions|
        invariant sessions == old(sessions)
        invariant kept + Purged(sessions[i..], now) == Purged(sessions, now)
      {
        assert sessions[i..][1..] == sessions[i + 1..];
        if sessions[i].expiresAtMs > now {
          kept := kept + [sessions[i]];
        }
      }
      sessions := kept;
    }

    /** `token` is the random draw. */
    method IssueSession(extensionId: string, now: nat, token: Token) returns (session: Session)
      modifies this`sessions
      ensures session == Session(token, now + SESSION_TTL_MS, extensionId)
      ensures sessions == Purged(old(sessions), now) + [session]
    {
      PurgeExpiredSessions(now);
      session := Session(token, now + SESSION_TTL_MS, extensionId);
      sessions := sessions + [session];
    }

    method SessionValid(token: Token, now: nat) returns (ok: bool)
      modifies this`sessions
      ensures sessions == Purged(old(sessions), now)
      ensures ok <==> Live(old(sessions), token, now)
    {
      PurgeExpiredSessions(now);
      ok := false;
      for i := 0 to |sessions|
        invariant ok <==> exists k :: 0 <= k < i && sessions[k].token == token && sessions[k].expiresAtMs > now
      {
        ok := ok || (sessions[i].token == token && sessions[i].expiresAtMs > now);
      }
    }

    /** The handshake arm of `handle_socket`: on success the new session token, on failure the closing of the socket. */
    method HandleHandshake(req: Handshake, now: nat, sessionDraw: Token, bootstrapDraw: Token)
        returns (sessionToken: Option<Token>)
      modifies this`sessions, this`bootstrapToken
      ensures sessionToken == if Accepts(allowedExtensionId, release, req, now) then Some(sessionDraw) else None
      ensures sessionToken.Some? <==> Trustworthy(allowedExtensionId, release, req, now)
      ensures sessionToken.None? ==> sessions == old(sessions) && bootstrapToken == old(bootstrapToken)
      ensures sessionToken.Some? ==> bootstrapToken == bootstrapDraw
      ensures sessionToken.Some? ==>
                sessions == Purged(old(sessions), now) + [Session(sessionDraw, now + SESSION_TTL_MS, req.extensionId)]
    {
      AcceptsIff(allowedExtensionId, release, req, now);
      hide Trustworthy;
      if !VersionsCompatible(req.protocolVersion) {
        return None;
      }
      if req.nonceLen < 16 || req.extensionId == "" {
        return None;
      }
      if AbsDiff(req.requestedAtMs, now) > HANDSHAKE_MAX_SKEW_MS {
        return None;
      }
      if !ExtensionIdAllowed(allowedExtensionId, release, req.extensionId) {
        return None;
      }
      var session := IssueSession(req.extensionId, now, sessionDraw);
      sessionToken := Some(session.token);
      bootstrapToken := bootstrapDraw;
    }

    /** `authed`. */
    method Authed(sessionToken: Option<Token>, provided: Token, now: nat) returns (ok: bool)
      modifies this`sessions
      ensures ok <==> sessionToken == Some(provided) && Live(old(sessions), provided, now)
      ensures sessions == if sessionToken == Some(provided) then Purged(old(sessions), now) else old(sessions)
    {
      if sessionToken.None? || provided != sessionToken.value {
        return false;
      }
      ok := SessionValid(sessionToken.value, now);
    }
  }

  // ----- Interleaved connections, one lock at a time -----

  /** Where a connection's handler is between two locks of the shared state. */
  datatype Pc =
    | Idle
    | IssuePurge(req: Handshake, now: nat)
    | IssuePush(req: Handshake, now: nat)
    | Rotate
    | AuthPurge(now: nat)
    | AuthCheck(now: nat)

  datatype Conn = Closed | Open(token: Option<Token>, pc: Pc)

  /** `used` holds every random token drawn so far. */
  datatype State = State(sessions: seq<Session>, bootstrap: Token, pin: Option<string>, conns: map<ConnId, Conn>,
                         used: set<Token>)

  datatype Event =
    | Upgrade(c: ConnId, origin: Option<string>, t: Token)
    | Request(c: ConnId, req: Handshake, now: nat)
    | PurgeForIssue(c: ConnId)
    | PushSession(c: ConnId, draw: Token)
    | RotateBootstrap(c: ConnId, draw: Token)
    | Privileged(c: ConnId, provided: Token, now: nat)
    | PurgeForAuth(c: ConnId)
    | CheckSession(c: ConnId)
    | Disconnect(c: ConnId)
    | SetPin(id: string)

  ghost predicate At(s: State, c: ConnId, pc: Pc) {
    c in s.conns && s.conns[c].Open? && s.conns[c].pc == pc
  }

  ghost predicate Enabled(release: bool, s: State, e: Event) {
    match e
    case Upgrade(c, origin, _) => c !in s.conns && OriginAllowed(s.pin, release, origin)
    case Request(c, _, _) => At(s, c, Idle)
    case PurgeForIssue(c) => c in s.conns && s.conns[c].Open? && s.conns[c].pc.IssuePurge?
    case PushSession(c, draw) => c in s.conns && s.conns[c].Open? && s.conns[c].pc.IssuePush? && draw !in s.used
    case RotateBootstrap(c, draw) => At(s, c, Rotate) && draw !in s.used
    case Privileged(c, _, _) => At(s, c, Idle)
    case PurgeForAuth(c) => c in s.conns && s.conns[c].Open? && s.conns[c].pc.AuthPurge? && s.conns[c].token.Some?
    case CheckSession(c) => c in s.conns && s.conns[c].Open? && s.conns[c].pc.AuthCheck? && s.conns[c].token.Some?
    case Disconnect(c) => At(s, c, Idle)
    case SetPin(_) => true
  }

  ghost function SetConn(s: State, c: ConnId, conn: Conn): State {
    s.(conns := s.conns[c := conn])
  }

  ghost function Next(release: bool, s: State, e: Event): State
    requires Enabled(release, s, e)
  {
    match e
    case Upgrade(c, _, t) => SetConn(s, c, if t == s.bootstrap then Open(None, Idle) else Closed)
    case Request(c, req, now) =>
      SetConn(s, c, if Accepts(s.pin, release, req, now) then s.conns[c].(pc := IssuePurge(req, now)) else Closed)
    case PurgeForIssue(c) =>
      var k := s.conns[c];
      SetConn(s, c, k.(pc := IssuePush(k.pc.req, k.pc.now))).(sessions := Purged(s.sessions, k.pc.now))
    case PushSession(c, draw) =>
      var k := s.conns[c];
      SetConn(s, c, Open(Some(draw), Rotate)).(
        sessions := s.sessions + [Session(draw, k.pc.now + SESSION_TTL_MS, k.pc.req.extensionId)],
        used := s.used + {draw})
    case RotateBootstrap(c, draw) => SetConn(s, c, s.conns[c].(pc := Idle)).(bootstrap := draw, used := s.used + {draw})
    case Privileged(c, provided, now) =>
      if s.conns[c].token == Some(provided) then SetConn(s, c, s.conns[c].(pc := AuthPurge(now))) else s
    case PurgeForAuth(c) =>
      var k := s.conns[c];
      SetConn(s, c, k.(pc := AuthCheck(k.pc.now))).(sessions := Purged(s.sessions, k.pc.now))
    case CheckSession(c) => SetConn(s, c, s.conns[c].(pc := Idle))
    case Disconnect(c) => SetConn(s, c, Closed)
    case SetPin(id) => s.(pin := Some(id))
  }

  /** What `authed` answers when the check of connection `c` runs in `s`: true lets the message be handled. */
  ghost predicate Handled(s: State, c: ConnId)
    requires c in s.conns && s.conns[c].Open? && s.conns[c].pc.AuthCheck? && s.conns[c].token.Some?
  {
    Live(s.sessions, s.conns[c].token.value, s.conns[c].pc.now)
  }

  ghost predicate Init(s: State) {
    s.sessions == [] && s.conns == map[] && s.used == {s.bootstrap}
  }

  datatype Trace = Trace(release: bool, states: seq<State>, events: seq<Event>)

  ghost predicate Valid(t: Trace) {
    && |t.states| == |t.events| + 1
    && Init(t.states[0])
    && forall i :: 0 <= i < |t.events| ==> ValidStep(t, i)
  }

  ghost predicate ValidStep(t: Trace, i: nat)
    requires |t.states| == |t.events| + 1 && i < |t.events|
  {
    Enabled(t.release, t.states[i], t.events[i]) && t.states[i + 1] == Next(t.release, t.states[i], t.events[i])
  }

  // ----- What a connection's state says about the past -----

  /** Step `u` upgraded `c` with the token then current and an allowed origin. */
  ghost predicate UpgradedAt(t: Trace, u: nat, c: ConnId)
    requires Valid(t)
  {
    && u < |t.events| && t.events[u].Upgrade? && t.events[u].c == c
    && t.events[u].t == t.states[u].bootstrap
    && OriginAllowed(t.states[u].pin, t.release, t.events[u].origin)
  }

  /** Step `h` is a handshake of `c` that passed every check. */
  ghost predicate AcceptedAt(t: Trace, h: nat, c: ConnId, req: Handshake, now: nat)
    requires Valid(t)
  {
    && h < |t.events| && t.events[h] == Request(c, req, now)
    && Accepts(t.states[h].pin, t.release, req, now)
  }

  /** Step `p` issued `token` on `c` and recorded a session that expires at `expires`. */
  ghost predicate IssuedAt(t: Trace, p: nat, c: ConnId, token: Token, expires: nat)
    requires Valid(t)
  {
    && p < |t.events| && t.events[p] == PushSession(c, token)
    && c in t.states[p].conns && t.states[p].conns[c].Open? && t.states[p].conns[c].pc.IssuePush?
    && expires == t.states[p].conns[c].pc.now + SESSION_TTL_MS
  }

  ghost predicate NoIssueBetween(t: Trace, p: nat, i: nat, c: ConnId)
    requires Valid(t)
  {
    forall k :: p < k < i && k < |t.events| ==> !(t.events[k].PushSession? && t.events[k].c == c)
  }

  /** Step numbers: the upgrade, the accepted handshake of the current token, its issue, the pending handshake,
      the pending privileged message. */
  datatype Witness = Witness(upgrade: nat, accepted: nat, issue: nat, pending: nat, message: nat)

  ghost predicate TokenExplained(t: Trace, i: nat, c: ConnId, token: Token, w: Witness)
    requires Valid(t)
  {
    && w.upgrade < w.accepted < w.issue < i && w.issue < |t.events|
    && t.events[w.accepted].Request?
    && AcceptedAt(t, w.accepted, c, t.events[w.accepted].req, t.events[w.accepted].now)
    && IssuedAt(t, w.issue, c, token, t.events[w.accepted].now + SESSION_TTL_MS)
    && NoIssueBetween(t, w.issue, i, c)
  }

  ghost predicate Explained(t: Trace, i: nat, c: ConnId, w: Witness)
    requires Valid(t) && i < |t.states| && c in t.states[i].conns
  {
    var k := t.states[i].conns[c];
    k.Open? ==>
      && w.upgrade < i && UpgradedAt(t, w.upgrade, c)
      && (k.token.Some? ==> TokenExplained(t, i, c, k.token.value, w))
      && (k.pc.IssuePurge? || k.pc.IssuePush? ==> w.upgrade < w.pending < i && AcceptedAt(t, w.pending, c, k.pc.req, k.pc.now))
      && (k.pc.AuthPurge? || k.pc.AuthCheck? ==>
            && k.token.Some? && w.issue < w.message < i
            && w.message < |t.events| && t.events[w.message] == Privileged(c, k.token.value, k.pc.now))
  }

  ghost predicate Touches(e: Event, c: ConnId) {
    !e.SetPin? && e.c == c
  }

  lemma OthersStep(t: Trace, i: nat, c: ConnId, w: Witness)
    requires Valid(t) && i < |t.events| && c in t.states[i].conns && !Touches(t.events[i], c)
    requires Explained(t, i, c, w)
    ensures c in t.states[i + 1].conns && Explained(t, i + 1, c, w)
  {
    assert ValidStep(t, i);
    assert t.states[i + 1].conns[c] == t.states[i].conns[c];
  }

  lemma HandshakeStep(t: Trace, i: nat, c: ConnId, w: Witness) returns (w': Witness)
    requires Valid(t) && i < |t.events| && c in t.states[i].conns && Touches(t.events[i], c)
    requires t.events[i].Request? || t.events[i].PurgeForIssue? || t.events[i].PushSession? || t.events[i].RotateBootstrap?
    requires Explained(t, i, c, w)
    ensures c in t.states[i + 1].conns && Explained(t, i + 1, c, w')
  {
    assert ValidStep(t, i);
    w' := w;
    if t.events[i].Request? {
      w' := w.(pending := i);
    } else if t.events[i].PushSession? {
      w' := w.(accepted := w.pending, issue := i);
    }
  }

  lemma MessageStep(t: Trace, i: nat, c: ConnId, w: Witness) returns (w': Witness)
    requires Valid(t) && i < |t.events| && c in t.states[i].conns && Touches(t.events[i], c)
    requires t.events[i].Privileged? || t.events[i].PurgeForAuth? || t.events[i].CheckSession? || t.events[i].Disconnect?
    requires Explained(t, i, c, w)
    ensures c in t.states[i + 1].conns && Explained(t, i + 1, c, w')
  {
    assert ValidStep(t, i);
    w' := if t.events[i].Privileged? then w.(message := i) else w;
  }

  lemma {:induction false} ConnHistory(t: Trace, i: nat, c: ConnId) returns (w: Witness)
    requires Valid(t) && i < |t.states| && c in t.states[i].conns
    ensures Explained(t, i, c, w)
    decreases i
  {
    assert i > 0;
    assert ValidStep(t, i - 1);
    var e := t.events[i - 1];
    if e.Upgrade? && e.c == c {
      w := Witness(i - 1, 0, 0, 0, 0);
    } else {
      hide Explained, NoIssueBetween;
      w := ConnHistory(t, i - 1, c);
      if !Touches(e, c) {
        OthersStep(t, i - 1, c, w);
      } else if e.Privileged? || e.PurgeForAuth? || e.CheckSession? || e.Disconnect? {
        w := MessageStep(t, i - 1, c, w);
      } else {
        w := HandshakeStep(t, i - 1, c, w);
      }
    }
  }

  // ----- Sessions and fresh tokens -----

  /** Every recorded session was issued by some step, and its token has been drawn. */
  lemma {:induction false} SessionHistory(t: Trace, i: nat, s: Session) returns (p: nat, c: ConnId)
    requires Valid(t) && i < |t.states| && s in t.states[i].sessions
    ensures p < i && IssuedAt(t, p, c, s.token, s.expiresAtMs)
    decreases i
  {
    assert i > 0;
    assert ValidStep(t, i - 1);
    var e := t.events[i - 1];
    if s in t.states[i - 1].sessions {
      p, c := SessionHistory(t, i - 1, s);
    } else {
      assert e.PushSession?;
      p, c := i - 1, e.c;
    }
  }

  lemma {:induction false} UsedGrows(t: Trace, i: nat, j: nat)
    requires Valid(t) && i <= j < |t.states|
    ensures t.states[i].used <= t.states[j].used
    decreases j
  {
    if i < j {
      assert ValidStep(t, j - 1);
      UsedGrows(t, i, j - 1);
    }
  }

  /** Two steps that issue the same token are the same step. */
  lemma IssueUnique(t: Trace, p: nat, q: nat)
    requires Valid(t) && p < |t.events| && q < |t.events|
    requires t.events[p].PushSession? && t.events[q].PushSession? && t.events[p].draw == t.events[q].draw
    ensures p == q
  {
    assert ValidStep(t, p) && ValidStep(t, q);
    if p < q {
      UsedGrows(t, p + 1, q);
      assert false;
    } else if q < p {
      UsedGrows(t, q + 1, p);
      assert false;
    }
  }

  /** A privileged message that is handled on `c` follows, on that connection, an upgrade with the bootstrap token
      then current, a handshake that passed every check, and the issue of a token that is the last one issued there;
      the message carries that token, and the token is unexpired at the message's clock reading. */
  lemma HandledOnlyWhenAuthorized(t: Trace, i: nat, c: ConnId) returns (w: Witness)
    requires Valid(t) && i < |t.events| && t.events[i] == CheckSession(c) && Enabled(t.release, t.states[i], t.events[i])
    requires Handled(t.states[i], c)
    ensures w.upgrade < w.accepted < w.issue < w.message < i
    ensures UpgradedAt(t, w.upgrade, c)
    ensures t.events[w.accepted].Request?
    ensures AcceptedAt(t, w.accepted, c, t.events[w.accepted].req, t.events[w.accepted].now)
    ensures t.events[w.issue].PushSession? && NoIssueBetween(t, w.issue, i, c)
    ensures IssuedAt(t, w.issue, c, t.events[w.issue].draw, t.events[w.accepted].now + SESSION_TTL_MS)
    ensures t.events[w.message] == Privileged(c, t.events[w.issue].draw, t.states[i].conns[c].pc.now)
    ensures t.states[i].conns[c].pc.now < t.events[w.accepted].now + SESSION_TTL_MS
  {
    w := ConnHistory(t, i, c);
    var k := t.states[i].conns[c];
    var s :| s in t.states[i].sessions && s.token == k.token.value && s.expiresAtMs > k.pc.now;
    var p, c' := SessionHistory(t, i, s);
    IssueUnique(t, p, w.issue);
  }

  // ----- What a handshake that is let through looks like -----

  predicate AllZeros(s: string) {
    forall i :: 0 <= i < |s| ==> s[i] == '0'
  }

  /** The version reads as major number 1: an optional plus sign, zeros, a one, and then nothing or a dot. */
  ghost predicate MajorIsOne(version: string) {
    exists lead: string, zeros: string, rest: string :: ReadsAsOne(version, lead, zeros, rest)
  }

  predicate ReadsAsOne(version: string, lead: string, zeros: string, rest: string) {
    && version == lead + zeros + "1" + rest
    && (lead == "" || lead == "+") && AllZeros(zeros) && (rest == "" || rest[0] == '.')
  }

  lemma {:induction false} OnlyZeros(s: string)
    requires AllDigits(s)
    ensures Value(s) == 0 <==> AllZeros(s)
  {
    if s != [] {
      var n := |s| - 1;
      var init, c := s[..n], s[n];
      OnlyZeros(init);
      ValueSnoc(init, c);
      assert s == init + [c];
      assert AllZeros(s) <==> AllZeros(init) && c == '0';
    }
  }

  lemma ValueOne(zeros: string, c: char)
    requires AllDigits(zeros) && IsDigit(c)
    ensures Value(zeros + [c]) == 1 <==> c == '1' && AllZeros(zeros)
  {
    OnlyZeros(zeros);
    ValueSnoc(zeros, c);
  }

  lemma VersionIff(version: string)
    ensures VersionsCompatible(version) <==> MajorIsOne(version)
  {
    if VersionsCompatible(version) {
      CompatibleReadsAsOne(version);
    }
    if MajorIsOne(version) {
      var lead, zeros, rest :| ReadsAsOne(version, lead, zeros, rest);
      ReadsAsOneCompatible(version, lead, zeros, rest);
    }
  }

  lemma CompatibleReadsAsOne(version: string)
    requires VersionsCompatible(version)
    ensures MajorIsOne(version)
  {
    hide Value, AllZeros, AllDigits, ReadsAsOne, IndexOf;
    var k := IndexOf(version, '.');
    DotAt(version, k);
    var head := version[..k];
    var lead, digits := if head[0] == '+' then "+" else "", if head[0] == '+' then head[1..] else head;
    var zeros := OneDigits(digits);
    assert head == lead + digits;
    OneReads(version, lead, zeros, version[k..]);
  }

  lemma OneDigits(digits: string) returns (zeros: string)
    requires digits != "" && AllDigits(digits) && Value(digits) == 1
    ensures digits == zeros + "1" && AllZeros(zeros)
  {
    hide Value, AllZeros;
    var n := |digits| - 1;
    zeros := digits[..n];
    assert digits == zeros + [digits[n]];
    ValueOne(zeros, digits[n]);
  }

  lemma DotAt(s: string, k: nat)
    requires k == IndexOf(s, '.')
    ensures k <= |s| && s == s[..k] + s[k..] && (s[k..] == "" || s[k..][0] == '.')
  {
    hide IndexOf;
    IndexMeans(s, '.');
  }

  lemma OneReads(version: string, lead: string, zeros: string, rest: string)
    requires version == lead + (zeros + "1") + rest
    requires (lead == "" || lead == "+") && AllZeros(zeros) && (rest == "" || rest[0] == '.')
    ensures ReadsAsOne(version, lead, zeros, rest)
  {
    assert lead + (zeros + "1") == lead + zeros + "1";
  }

  lemma ReadsAsOneCompatible(version: string, lead: string, zeros: string, rest: string)
    requires ReadsAsOne(version, lead, zeros, rest)
    ensures VersionsCompatible(version)
  {
    hide IndexOf, Value;
    var digits := zeros + "1";
    var head := lead + digits;
    assert version == head + rest;
    assert '.' !in head;
    HeadBeforeDot(head, rest);
    assert AllDigits(digits) && IsDigit('1');
    ValueOne(zeros, '1');
    assert zeros + ['1'] == digits;
    assert lead == "+" ==> head[1..] == digits;
    assert lead == "" ==> head == digits && head[0] == digits[0];
  }

  lemma HeadBeforeDot(head: string, rest: string)
    requires '.' !in head && (rest == "" || rest[0] == '.')
    ensures (head + rest)[..IndexOf(head + rest, '.')] == head
  {
    var s := head + rest;
    if rest == "" {
      assert s == head;
      IndexOfNone(s, '.');
    } else {
      assert s[..|head|] == head && s[|head|] == '.';
      IndexOfFirst(s, '.', |head|);
    }
  }

  /** The conditions on a handshake, spelled out. */
  ghost predicate Trustworthy(pin: Option<string>, release: bool, req: Handshake, now: nat) {
    && MajorIsOne(req.protocolVersion)
    && req.nonceLen >= 16
    && req.requestedAtMs <= now + 120_000 && now <= req.requestedAtMs + 120_000
    && req.extensionId != "" && (pin == Some(req.extensionId) || (pin == None && !release))
  }

  lemma AcceptsIff(pin: Option<string>, release: bool, req: Handshake, now: nat)
    ensures Accepts(pin, release, req, now) <==> Trustworthy(pin, release, req, now)
  {
    hide VersionsCompatible, MajorIsOne;
    VersionIff(req.protocolVersion);
  }

  /** An idle connection is kept after a handshake request exactly when the request meets the conditions. */
  lemma KeptIffTrustworthy(release: bool, s: State, c: ConnId, req: Handshake, now: nat)
    requires At(s, c, Idle)
    ensures Enabled(release, s, Request(c, req, now))
    ensures Next(release, s, Request(c, req, now)).conns[c] != Closed <==> Trustworthy(s.pin, release, req, now)
  {
    hide Accepts, Trustworthy;
    AcceptsIff(s.pin, release, req, now);
  }

  /** The conditions on an origin, spelled out. */
  ghost predicate KnownOrigin(pin: Option<string>, release: bool, origin: Option<string>) {
    || origin == None || origin == Some("http://127.0.0.1") || origin == Some("https://127.0.0.1")
    || (exists id: string :: origin == Some("chrome-extension://" + id) && (pin == Some(id) || (pin == None && !release)))
  }

  lemma OriginIff(pin: Option<string>, release: bool, origin: Option<string>)
    ensures OriginAllowed(pin, release, origin) <==> KnownOrigin(pin, release, origin)
  {
    if origin.Some? && StartsWith(origin.value, "chrome-extension://") {
      var id := origin.value[|"chrome-extension://"|..];
      assert origin.value == "chrome-extension://" + id;
    }
    if id: string :| origin == Some("chrome-extension://" + id) && (pin == Some(id) || (pin == None && !release)) {
      assert StartsWith(origin.value, "chrome-extension://");
    }
  }

  /** A privileged message is handled only on a connection that was upgraded from a known origin with the bootstrap token
      then current, and whose last issued token came from a handshake that met the conditions under the pin of its time;
      the message's clock reading is less than 30 minutes after that handshake's. */
  lemma HandledIsTrusted(t: Trace, i: nat, c: ConnId) returns (w: Witness)
    requires Valid(t) && i < |t.events| && t.events[i] == CheckSession(c) && Enabled(t.release, t.states[i], t.events[i])
    requires Handled(t.states[i], c)
    ensures w.upgrade < w.accepted < w.issue < w.message < i
    ensures t.events[w.upgrade].Upgrade? && t.events[w.upgrade].c == c
    ensures t.events[w.upgrade].t == t.states[w.upgrade].bootstrap
    ensures KnownOrigin(t.states[w.upgrade].pin, t.release, t.events[w.upgrade].origin)
    ensures t.events[w.accepted].Request? && t.events[w.accepted].c == c
    ensures Trustworthy(t.states[w.accepted].pin, t.release, t.events[w.accepted].req, t.events[w.accepted].now)
    ensures t.events[w.issue].PushSession? && t.events[w.issue].c == c && NoIssueBetween(t, w.issue, i, c)
    ensures t.events[w.message].Privileged? && t.events[w.message].c == c
    ensures t.events[w.message].provided == t.events[w.issue].draw
    ensures t.events[w.message].now < t.events[w.accepted].now + 1_800_000
  {
    hide Accepts, Trustworthy, OriginAllowed, KnownOrigin;
    w := HandledOnlyWhenAuthorized(t, i, c);
    AcceptsIff(t.states[w.accepted].pin, t.release, t.events[w.accepted].req, t.events[w.accepted].now);
    OriginIff(t.states[w.upgrade].pin, t.release, t.events[w.upgrade].origin);
  }

  lemma {:induction false} SessionPushed(t: Trace, i: nat, s: Session) returns (p: nat, c: ConnId)
    requires Valid(t) && i < |t.states| && s in t.states[i].sessions
    ensures p < i && t.events[p] == PushSession(c, s.token)
    ensures c in t.states[p].conns && t.states[p].conns[c].Open? && t.states[p].conns[c].pc.IssuePush?
    ensures s.extensionId == t.states[p].conns[c].pc.req.extensionId
    ensures s.expiresAtMs == t.states[p].conns[c].pc.now + SESSION_TTL_MS
    decreases i
  {
    assert i > 0;
    assert ValidStep(t, i - 1);
    var e := t.events[i - 1];
    if s in t.states[i - 1].sessions {
      p, c := SessionPushed(t, i - 1, s);
    } else {
      assert e.PushSession?;
      p, c := i - 1, e.c;
    }
  }

  /** Every recorded session comes from an earlier handshake that met the conditions; it carries that handshake's extension
      id and ends 30 minutes after its clock reading. */
  lemma SessionIsTrusted(t: Trace, i: nat, s: Session) returns (h: nat)
    requires Valid(t) && i < |t.states| && s in t.states[i].sessions
    ensures h < i && t.events[h].Request?
    ensures Trustworthy(t.states[h].pin, t.release, t.events[h].req, t.events[h].now)
    ensures s.extensionId == t.events[h].req.extensionId && s.expiresAtMs == t.events[h].now + 1_800_000
  {
    hide Accepts, Trustworthy;
    var p, c := SessionPushed(t, i, s);
    var w := ConnHistory(t, p, c);
    h := w.pending;
    AcceptsIff(t.states[h].pin, t.release, t.events[h].req, t.events[h].now);
  }

  // ----- Once invalid, always invalid -----

  ghost predicate Recorded(s: State, token: Token) {
    exists x :: x in s.sessions && x.token == token
  }

  lemma RecordedStep(t: Trace, i: nat, token: Token)
    requires Valid(t) && i < |t.events| && token in t.states[i].used && !Recorded(t.states[i], token)
    ensures !Recorded(t.states[i + 1], token)
  {
    assert ValidStep(t, i);
    var s, s' := t.states[i], t.states[i + 1];
    forall x | x in s'.sessions ensures x.token != token {
      assert x in s.sessions || x.token !in s.used;
    }
  }

  lemma {:induction false} StaysUnrecorded(t: Trace, i: nat, j: nat, token: Token)
    requires Valid(t) && i <= j < |t.states| && token in t.states[i].used && !Recorded(t.states[i], token)
    ensures !Recorded(t.states[j], token)
    decreases j
  {
    if i < j {
      StaysUnrecorded(t, i, j - 1, token);
      UsedGrows(t, i, j - 1);
      RecordedStep(t, j - 1, token);
    }
  }

  lemma {:induction false} TokensAreUsed(t: Trace, i: nat, c: ConnId)
    requires Valid(t) && i < |t.states| && c in t.states[i].conns && t.states[i].conns[c].Open?
    requires t.states[i].conns[c].token.Some?
    ensures t.states[i].conns[c].token.value in t.states[i].used
  {
    var w := ConnHistory(t, i, c);
    assert ValidStep(t, w.issue);
    UsedGrows(t, w.issue + 1, i);
  }

  /** Between the two locks of `session_valid` the token has no session that is expired at its clock reading. */
  ghost predicate NoExpired(s: State, token: Token, now: nat) {
    forall x :: x in s.sessions && x.token == token ==> x.expiresAtMs > now
  }

  lemma {:induction false} CheckSeesNoExpired(t: Trace, i: nat, c: ConnId)
    requires Valid(t) && i < |t.states| && c in t.states[i].conns && t.states[i].conns[c].Open?
    requires t.states[i].conns[c].pc.AuthCheck? && t.states[i].conns[c].token.Some?
    ensures NoExpired(t.states[i], t.states[i].conns[c].token.value, t.states[i].conns[c].pc.now)
    decreases i
  {
    assert i > 0;
    assert ValidStep(t, i - 1);
    var s, s', e := t.states[i - 1], t.states[i], t.events[i - 1];
    if !(e.PurgeForAuth? && e.c == c) {
      assert s'.conns[c] == s.conns[c];
      CheckSeesNoExpired(t, i - 1, c);
      TokensAreUsed(t, i - 1, c);
      forall x | x in s'.sessions && x.token == s.conns[c].token.value ensures x.expiresAtMs > s.conns[c].pc.now {
        assert x in s.sessions || x.token !in s.used;
      }
    }
  }

  /** Once `session_valid` has answered false for a token, no later call answers true for it, on any connection and
      for any clock reading, also one that has gone back. */
  lemma InvalidForever(t: Trace, i: nat, c: ConnId, j: nat, d: ConnId)
    requires Valid(t) && i < j < |t.events| && t.events[i] == CheckSession(c) && t.events[j] == CheckSession(d)
    requires Enabled(t.release, t.states[i], t.events[i]) && Enabled(t.release, t.states[j], t.events[j])
    requires t.states[i].conns[c].token == t.states[j].conns[d].token
    requires !Handled(t.states[i], c)
    ensures !Handled(t.states[j], d)
  {
    var token := t.states[i].conns[c].token.value;
    CheckSeesNoExpired(t, i, c);
    TokensAreUsed(t, i, c);
    assert !Recorded(t.states[i], token);
    StaysUnrecorded(t, i, j, token);
  }

  // ----- The operations as uninterrupted steps -----

  /** `s'` is reached from `s` by these events, one after the other. */
  ghost predicate Leads(release: bool, s: State, events: seq<Event>, s': State)
    decreases |events|
  {
    if events == [] then s == s'
    else Enabled(release, s, events[0]) && Leads(release, Next(release, s, events[0]), events[1..], s')
  }

  /** A handshake that no other connection interrupts does what `HandleHandshake` does. */
  lemma HandshakeUninterrupted(release: bool, s: State, c: ConnId, req: Handshake, now: nat, d1: Token, d2: Token)
    requires At(s, c, Idle) && d1 !in s.used && d2 !in s.used && d1 != d2
    ensures !Accepts(s.pin, release, req, now) ==>
              Leads(release, s, [Request(c, req, now)], SetConn(s, c, Closed))
    ensures Accepts(s.pin, release, req, now) ==>
              Leads(release, s, [Request(c, req, now), PurgeForIssue(c), PushSession(c, d1), RotateBootstrap(c, d2)],
                    State(Purged(s.sessions, now) + [Session(d1, now + SESSION_TTL_MS, req.extensionId)], d2, s.pin,
                          s.conns[c := Open(Some(d1), Idle)], s.used + {d1} + {d2}))
  {
    hide Accepts, Leads;
    if Accepts(s.pin, release, req, now) {
      var e1, e2, e3, e4 := Request(c, req, now), PurgeForIssue(c), PushSession(c, d1), RotateBootstrap(c, d2);
      assert [e1] + [e2, e3, e4] == [e1, e2, e3, e4] && [e2] + [e3, e4] == [e2, e3, e4];
      assert [e3] + [e4] == [e3, e4] && [e4] + [] == [e4];
      var token := s.conns[c].token;
      var s1 := SetConn(s, c, Open(token, IssuePurge(req, now)));
      var s2 := SetConn(s, c, Open(token, IssuePush(req, now))).(sessions := Purged(s.sessions, now));
      var session := Session(d1, now + SESSION_TTL_MS, req.extensionId);
      var s3 := SetConn(s, c, Open(Some(d1), Rotate)).(sessions := s2.sessions + [session], used := s.used + {d1});
      var s4 := State(s3.sessions, d2, s.pin, s.conns[c := Open(Some(d1), Idle)], s.used + {d1} + {d2});
      assert Next(release, s, e1) == s1;
      assert Next(release, s1, e2) == s2 by { assert s1.conns[c := s2.conns[c]] == s2.conns; }
      assert Next(release, s2, e3) == s3 by { assert s2.conns[c := s3.conns[c]] == s3.conns; }
      assert Next(release, s3, e4) == s4 by { assert s3.conns[c := s4.conns[c]] == s4.conns; }
      hide Next, Enabled;
      LeadsCons(release, s3, e4, [], s4);
      LeadsCons(release, s2, e3, [e4], s4);
      LeadsCons(release, s1, e2, [e3, e4], s4);
      LeadsCons(release, s, e1, [e2, e3, e4], s4);
    } else {
      LeadsCons(release, s, Request(c, req, now), [], SetConn(s, c, Closed));
      assert [Request(c, req, now)] + [] == [Request(c, req, now)];
    }
  }

  /** A privileged message that no other connection interrupts is checked as `Authed` checks it. */
  lemma AuthUninterrupted(release: bool, s: State, c: ConnId, provided: Token, now: nat) returns (s': State)
    requires At(s, c, Idle)
    ensures s.conns[c].token != Some(provided) ==> s' == s && Leads(release, s, [Privileged(c, provided, now)], s')
    ensures s.conns[c].token == Some(provided) ==>
              && Leads(release, s, [Privileged(c, provided, now), PurgeForAuth(c)], s')
              && Enabled(release, s', CheckSession(c))
              && (Handled(s', c) <==> Live(s.sessions, provided, now))
              && Next(release, s', CheckSession(c)) == s.(sessions := Purged(s.sessions, now))
  {
    var e1, e2 := Privileged(c, provided, now), PurgeForAuth(c);
    assert [e1] + [e2] == [e1, e2] && [e1] + [] == [e1] && [e2] + [] == [e2];
    if s.conns[c].token == Some(provided) {
      var s1 := SetConn(s, c, Open(Some(provided), AuthPurge(now)));
      s' := SetConn(s, c, Open(Some(provided), AuthCheck(now))).(sessions := Purged(s.sessions, now));
      assert Next(release, s1, e2) == s' by { assert s1.conns[c := s'.conns[c]] == s'.conns; }
      LeadsCons(release, s1, e2, [], s');
      LeadsCons(release, s, e1, [e2], s');
      assert s'.conns[c := s.conns[c]] == s.conns;
    } else {
      s' := s;
      LeadsCons(release, s, e1, [], s');
    }
  }

  lemma LeadsCons(release: bool, s: State, e: Event, rest: seq<Event>, s': State)
    requires Enabled(release, s, e)
    requires rest == [] ==> Next(release, s, e) == s'
    requires rest != [] ==> Leads(release, Next(release, s, e), rest, s')
    ensures Leads(release, s, [e] + rest, s')
  {
    hide Enabled, Next;
    assert ([e] + rest)[1..] == rest;
  }

  // ----- Bootstrap tokens are not current twice -----

  lemma {:induction false} BootstrapIsUsed(t: Trace, i: nat)
    requires Valid(t) && i < |t.states|
    ensures t.states[i].bootstrap in t.states[i].used
  {
    if i > 0 {
      assert ValidStep(t, i - 1);
      BootstrapIsUsed(t, i - 1);
    }
  }

  /** A bootstrap token that has been rotated out never opens a connection again. */
  lemma {:induction false} StaleBootstrap(t: Trace, i: nat, j: nat, k: nat)
    requires Valid(t) && i <= j <= k < |t.states| && t.states[i].bootstrap != t.states[j].bootstrap
    ensures t.states[k].bootstrap != t.states[i].bootstrap
    decreases k
  {
    if j < k {
      StaleBootstrap(t, i, j, k - 1);
      assert ValidStep(t, k - 1);
      BootstrapIsUsed(t, i);
      UsedGrows(t, i, k - 1);
    }
  }
}
