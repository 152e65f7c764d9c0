/** CONNECT (section 3.1 of MQTT Version 3.1.1) as handleConnect reads it, up to the authentication. */
module Connects {
  import opened Base
  import opened Codec

  const CONNECT: byte := 0x10

  const PROTOCOL_31: nat := 1
  const PROTOCOL_311: nat := 2

  const NAME_31: Text := [77, 81, 73, 115, 100, 112]  // "MQIsdp"
  const NAME_311: Text := [77, 81, 84, 84]  // "MQTT"

  const REFUSED_VERSION: byte := 1
  const REFUSED_IDENTIFIER: byte := 2
  const REFUSED_LOGIN: byte := 4

  datatype Login = Login(username: Text, password: Text)

  /** What a client asks for; `rawId` still carries the request options. */
  datatype Request = Request(
    protocol: nat,
    cleanSession: nat,
    keepalive: nat,
    rawId: Text,
    will: Option<Message>,
    username: Option<Text>,
    password: Option<Text>)

  /** A value and the position after it, a refusal that is answered with a CONNACK, an error that is not
      answered, or a run-time error. */
  datatype Reading<+T> = Read(value: T, pos: nat) | Refused(code: byte) | Malformed | Broken

  function Unread<T, U>(g: Got<T>): Reading<U>
    requires !g.Got?
  {
    if g.Crash? then Broken else Malformed
  }

  datatype Intro = Intro(name: Text, version: byte, flags: byte)

  function ReadIntro(body: Slice): Got<Intro> {
    var name := GetString(body, 0);
    if !name.Got? then Missed(name)
    else
      var version, flags := GetByte(body, |name.value| + 2), GetByte(body, |name.value| + 3);
      if !version.Got? then Missed(version)
      else if !flags.Got? then Missed(flags)
      else Got(Intro(name.value, version.value % 128, flags.value))
  }

  datatype Preamble = Preamble(protocol: nat, flags: nat)

  /** Protocol name, protocol version and connect flags. */
  function ReadPreamble(command: byte, body: Slice): Reading<Preamble> {
    var intro := ReadIntro(body);
    if !intro.Got? then Unread(intro)
    else
      var i, flags := intro.value, intro.value.flags as nat;
      if i.name == NAME_31 then
        if i.version == 3 then Read(Preamble(PROTOCOL_31, flags), 10) else Refused(REFUSED_VERSION)
      else if i.name == NAME_311 then
        if i.version != 4 then Refused(REFUSED_VERSION)
        else if command % 16 != 0 || flags % 2 != 0 then Malformed
        else Read(Preamble(PROTOCOL_311, flags), 8)
      else Malformed
  }

  function WillQos(flags: nat): nat { flags / 8 % 4 }

  predicate HasWill(flags: nat) { flags / 4 % 2 == 1 }

  predicate WillRetained(flags: nat) { flags / 32 % 2 == 1 }

  predicate HasLogin(flags: nat) { flags / 64 % 2 == 1 && flags / 128 % 2 == 1 }

  predicate FlagsOk(flags: nat) {
    WillQos(flags) < 3 && (!HasWill(flags) ==> WillQos(flags) == 0 && !WillRetained(flags))
  }

  function WillMessage(topic: Text, qos: nat, retain: bool, payload: seq<byte>): Message {
    Message(topic, 0, 0, 0, qos, false, retain, payload, 0)
  }

  function ReadWill(body: Slice, pos: nat, flags: nat): Reading<Option<Message>> {
    if !HasWill(flags) then Read(None, pos)
    else
      var topic := GetString(body, pos);
      if !topic.Got? then Unread(topic)
      else if topic.value == [] then Malformed
      else
        var at := pos + 2 + |topic.value|;
        var payload := GetString(body, at);
        if !payload.Got? then Unread(payload)
        else
          var will := WillMessage(topic.value, WillQos(flags), WillRetained(flags), payload.value);
          Read(Some(will), at + 2 + |payload.value|)
  }

  /** The password is read even when the username could not be. */
  function ReadLogin(body: Slice, pos: nat, flags: nat): Reading<Login> {
    var username, at := GetString(body, pos), StringEnd(body, pos);
    var password := GetString(body, at);
    if !HasLogin(flags) then Refused(REFUSED_LOGIN)
    else if username.Crash? || password.Crash? then Broken
    else if username.Bad? || password.Bad? then Refused(REFUSED_LOGIN)
    else Read(Login(username.value, password.value), at + 2 + |password.value|)
  }

  /** The will and the login, after the client identifier. */
  function ReadTail(body: Slice, pos: nat, so: Request, flags: nat): Reading<Request> {
    match ReadWill(body, pos, flags)
    case Refused(code) => Refused(code)
    case Malformed => Malformed
    case Broken => Broken
    case Read(will, at) =>
      match ReadLogin(body, at, flags)
      case Refused(code) => Refused(code)
      case Malformed => Malformed
      case Broken => Broken
      case Read(login, end) =>
        Read(so.(will := will, username := Some(login.username), password := Some(login.password)), end)
  }

  datatype Head = Head(keepalive: nat, rawId: Text)

  /** Keep alive and client identifier. */
  function ReadHead(body: Slice, pos: nat, flags: nat): Reading<Head> {
    var keepalive, id := GetUint16(body, pos), GetString(body, pos + 2);
    if !FlagsOk(flags) then Malformed
    else if !keepalive.Got? then Unread(keepalive)
    else if id.Crash? then Broken
    else if id.Bad? || id.value == [] then Refused(REFUSED_IDENTIFIER)
    else Read(Head(keepalive.value, id.value), pos + 4 + |id.value|)
  }

  function Begun(pre: Preamble, head: Head): Request {
    Request(pre.protocol, pre.flags / 2 % 2, head.keepalive, head.rawId, None, None, None)
  }

  function ReadRest(body: Slice, pos: nat, pre: Preamble): Reading<Request> {
    match ReadHead(body, pos, pre.flags)
    case Refused(code) => Refused(code)
    case Malformed => Malformed
    case Broken => Broken
    case Read(head, at) => ReadTail(body, at, Begun(pre, head), pre.flags)
  }

  function ParseConnect(command: byte, body: Slice): Reading<Request> {
    match ReadPreamble(command, body)
    case Refused(code) => Refused(code)
    case Malformed => Malformed
    case Broken => Broken
    case Read(pre, pos) => ReadRest(body, pos, pre)
  }

  // ---------------------------------------------------------------- what a client sends

  predicate Fits(s: Text) { |s| < 65536 }

  predicate FitsIfAny(s: Option<Text>) { s.Some? ==> Fits(s.value) }

  /** Username and password may each be there or not. */
  predicate WellFormed(c: Request) {
    && (c.protocol == PROTOCOL_31 || c.protocol == PROTOCOL_311)
    && c.cleanSession <= 1 && c.keepalive < 65536 && Fits(c.rawId)
    && (c.will.Some? ==>
          var m := c.will.value;
          && m == WillMessage(m.topic, m.qos, m.retain, m.payload)
          && m.topic != [] && m.qos <= 2 && Fits(m.topic) && Fits(m.payload))
    && FitsIfAny(c.username) && FitsIfAny(c.password)
  }

  function Flags(c: Request): nat {
    2 * c.cleanSession + WillFlags(c.will) + LoginFlags(c)
  }

  function LoginFlags(c: Request): nat {
    (if c.username.Some? then 128 else 0) + if c.password.Some? then 64 else 0
  }

  function WillFlags(will: Option<Message>): nat {
    if will.None? then 0 else 4 + 8 * will.value.qos + if will.value.retain then 32 else 0
  }

  function WillBytes(will: Option<Message>): seq<byte> {
    if will.None? then [] else FullString(will.value.topic) + FullString(will.value.payload)
  }

  function BytesIfAny(s: Option<Text>): seq<byte> { if s.None? then [] else FullString(s.value) }

  function LoginBytes(c: Request): seq<byte> { BytesIfAny(c.username) + BytesIfAny(c.password) }

  function TailBytes(c: Request): seq<byte> { WillBytes(c.will) + LoginBytes(c) }

  function RestBytes(c: Request): seq<byte> { FullUint16(c.keepalive) + (FullString(c.rawId) + TailBytes(c)) }

  /** Protocol name and version and the flags, and what follows. */
  function Opening(protocol: nat, flags: byte, rest: seq<byte>): seq<byte> {
    if protocol == PROTOCOL_31 then FullString(NAME_31) + ([3, flags] + rest) else FullString(NAME_311) + ([4, flags] + rest)
  }

  function ConnectBody(c: Request): seq<byte> { Opening(c.protocol, (Flags(c) % 256) as byte, RestBytes(c)) }

  /** The flags say about the request what they should. */
  predicate Describes(f: nat, c: Request) {
    && f / 2 % 2 == c.cleanSession && FlagsOk(f)
    && (HasWill(f) <==> c.will.Some?) && (HasLogin(f) <==> c.username.Some? && c.password.Some?)
    && (c.will.Some? ==> WillQos(f) == c.will.value.qos && (WillRetained(f) <==> c.will.value.retain))
  }

  /** The flags byte put together from its bits and the two bits of the will's qos. */
  function FlagByte(clean: nat, will: nat, qos: nat, retain: nat, password: nat, username: nat): nat {
    2 * clean + 4 * will + 8 * qos + 32 * retain + 64 * password + 128 * username
  }

  lemma FlagQuotients(clean: nat, will: nat, qos: nat, retain: nat, password: nat, username: nat)
    requires clean <= 1 && will <= 1 && qos <= 2 && retain <= 1 && password <= 1 && username <= 1
    ensures var f := FlagByte(clean, will, qos, retain, password, username);
            && f / 128 == username && f / 64 == 2 * username + password && f / 32 == 2 * (f / 64) + retain
            && f / 8 == 4 * (f / 32) + qos && f / 4 == 2 * (f / 8) + will && f / 2 == 2 * (f / 4) + clean
  {
  }

  lemma Parity(a: nat, b: nat)
    requires b <= 1
    ensures (2 * a + b) % 2 == b
  {
  }

  lemma Quarter(a: nat, b: nat)
    requires b <= 2
    ensures (4 * a + b) % 4 == b
  {
  }

  lemma FlagBits(f: nat, clean: nat, will: nat, qos: nat, retain: nat, password: nat, username: nat)
    requires clean <= 1 && will <= 1 && qos <= 2 && retain <= 1 && password <= 1 && username <= 1
    requires f == FlagByte(clean, will, qos, retain, password, username)
    ensures f < 256 && f % 2 == 0 && f / 2 % 2 == clean && f / 4 % 2 == will && f / 8 % 4 == qos
    ensures f / 32 % 2 == retain && f / 64 % 2 == password && f / 128 % 2 == username
  {
    FlagQuotients(clean, will, qos, retain, password, username);
    Parity(f / 4, clean);
    Parity(f / 8, will);
    Quarter(f / 32, qos);
    Parity(f / 64, retain);
    Parity(f / 128, password);
  }

  function One(b: bool): nat { if b then 1 else 0 }

  lemma FlagsRead(c: Request)
    requires WellFormed(c)
    ensures Flags(c) < 256 && Flags(c) % 2 == 0 && Describes(Flags(c), c)
  {
    var will := c.will.Some?;
    var qos := if will then c.will.value.qos else 0;
    var retain := will && c.will.value.retain;
    FlagBits(Flags(c), c.cleanSession, One(will), qos, One(retain), One(c.password.Some?), One(c.username.Some?));
  }

  /** The two bytes behind the protocol name. */
  lemma NameReads(name: Text, version: byte, flags: byte, rest: seq<byte>, body: seq<byte>)
    requires Fits(name) && body == FullString(name) + ([version, flags] + rest)
    ensures GetString(Whole(body), 0) == Got(name) && |name| + 4 <= |body|
    ensures body[|name| + 2] == version && body[|name| + 3] == flags && body[|name| + 4..] == rest
  {
    assert body[0..] == body;
    FullStringAt(name, body, 0, [version, flags] + rest);
    var tail := body[|name| + 2..];
    assert tail[0] == version && tail[1] == flags && tail[2..] == rest;
  }

  lemma Preamble31(body: seq<byte>)
    requires GetString(Whole(body), 0) == Got(NAME_31) && 10 <= |body| && body[8] == 3
    ensures ReadPreamble(CONNECT, Whole(body)) == Read(Preamble(PROTOCOL_31, body[9] as nat), 10)
  {
  }

  lemma Preamble311(body: seq<byte>)
    requires GetString(Whole(body), 0) == Got(NAME_311) && 8 <= |body| && body[6] == 4 && body[7] % 2 == 0
    ensures ReadPreamble(CONNECT, Whole(body)) == Read(Preamble(PROTOCOL_311, body[7] as nat), 8)
  {
    assert |NAME_311| != |NAME_31|;
  }

  function OpeningLength(protocol: nat): nat { if protocol == PROTOCOL_31 then 10 else 8 }

  lemma PreambleReads(protocol: nat, flags: byte, rest: seq<byte>)
    requires (protocol == PROTOCOL_31 || protocol == PROTOCOL_311) && flags % 2 == 0
    ensures var body := Opening(protocol, flags, rest);
            && ReadPreamble(CONNECT, Whole(body)) == Read(Preamble(protocol, flags as nat), OpeningLength(protocol))
            && OpeningLength(protocol) <= |body| && body[OpeningLength(protocol)..] == rest
  {
    var body := Opening(protocol, flags, rest);
    if protocol == PROTOCOL_31 {
      NameReads(NAME_31, 3, flags, rest, body);
      Preamble31(body);
    } else {
      NameReads(NAME_311, 4, flags, rest, body);
      Preamble311(body);
    }
  }

  lemma TwoStringsAt(s: Text, t: Text, body: seq<byte>, pos: nat, tail: seq<byte>, after: seq<byte>)
    requires Fits(s) && Fits(t) && pos <= |body| && body[pos..] == FullString(s) + tail && tail == FullString(t) + after
    ensures GetString(Whole(body), pos) == Got(s) && GetString(Whole(body), pos + 2 + |s|) == Got(t)
    ensures pos + 4 + |s| + |t| <= |body| && body[pos + 4 + |s| + |t|..] == after
  {
    FullStringAt(s, body, pos, tail);
    FullStringAt(t, body, pos + 2 + |s|, after);
  }

  function WillEnd(will: Option<Message>, pos: nat): nat {
    if will.None? then pos else pos + 4 + |will.value.topic| + |will.value.payload|
  }

  lemma WillFrom(body: seq<byte>, pos: nat, f: nat, topic: Text, payload: Text)
    requires HasWill(f) && topic != []
    requires GetString(Whole(body), pos) == Got(topic) && GetString(Whole(body), pos + 2 + |topic|) == Got(payload)
    ensures ReadWill(Whole(body), pos, f) ==
            Read(Some(WillMessage(topic, WillQos(f), WillRetained(f), payload)), pos + 4 + |topic| + |payload|)
  {
  }

  lemma WillThere(body: seq<byte>, pos: nat, f: nat, topic: Text, payload: Text, after: seq<byte>)
    requires HasWill(f) && topic != [] && Fits(topic) && Fits(payload)
    requires pos <= |body| && body[pos..] == FullString(topic) + (FullString(payload) + after)
    ensures ReadWill(Whole(body), pos, f) ==
            Read(Some(WillMessage(topic, WillQos(f), WillRetained(f), payload)), pos + 4 + |topic| + |payload|)
    ensures pos + 4 + |topic| + |payload| <= |body| && body[pos + 4 + |topic| + |payload|..] == after
  {
    TwoStringsAt(topic, payload, body, pos, FullString(payload) + after, after);
    WillFrom(body, pos, f, topic, payload);
  }

  lemma WillReads(c: Request, f: nat, body: seq<byte>, pos: nat)
    requires WellFormed(c) && Describes(f, c) && pos <= |body| && body[pos..] == TailBytes(c)
    ensures ReadWill(Whole(body), pos, f) == Read(c.will, WillEnd(c.will, pos))
    ensures WillEnd(c.will, pos) <= |body| && body[WillEnd(c.will, pos)..] == LoginBytes(c)
  {
    if c.will.Some? {
      Regroup(FullString(c.will.value.topic), FullString(c.will.value.payload), LoginBytes(c));
      WillThere(body, pos, f, c.will.value.topic, c.will.value.payload, LoginBytes(c));
    } else {
      assert TailBytes(c) == LoginBytes(c);
    }
  }

  lemma LoginFrom(body: seq<byte>, pos: nat, f: nat, username: Text, password: Text)
    requires HasLogin(f)
    requires GetString(Whole(body), pos) == Got(username) && GetString(Whole(body), pos + 2 + |username|) == Got(password)
    ensures ReadLogin(Whole(body), pos, f) == Read(Login(username, password), pos + 4 + |username| + |password|)
  {
  }

  lemma LoginReads(c: Request, f: nat, body: seq<byte>, pos: nat)
    requires WellFormed(c) && Describes(f, c) && pos <= |body| && body[pos..] == LoginBytes(c)
    ensures ReadLogin(Whole(body), pos, f) ==
            if c.username.Some? && c.password.Some? then Read(Login(c.username.value, c.password.value), |body|)
            else Refused(REFUSED_LOGIN)
  {
    if c.username.Some? && c.password.Some? {
      var username, password := c.username.value, c.password.value;
      assert FullString(password) == FullString(password) + [];
      TwoStringsAt(username, password, body, pos, FullString(password), []);
      LoginFrom(body, pos, f, username, password);
      assert |body[pos + 4 + |username| + |password|..]| == 0;
    }
  }

  function Verdict(c: Request, end: nat): Reading<Request> {
    if c.rawId == [] then Refused(REFUSED_IDENTIFIER)
    else if c.username.None? || c.password.None? then Refused(REFUSED_LOGIN)
    else Read(c, end)
  }

  lemma TailReads(c: Request, so: Request, f: nat, body: seq<byte>, pos: nat)
    requires WellFormed(c) && Describes(f, c) && pos <= |body| && body[pos..] == TailBytes(c)
    requires so == c.(will := None, username := None, password := None) && c.rawId != []
    ensures ReadTail(Whole(body), pos, so, f) == Verdict(c, |body|)
  {
    WillReads(c, f, body, pos);
    LoginReads(c, f, body, WillEnd(c.will, pos));
  }

  lemma HeadReads(c: Request, f: nat, body: seq<byte>, pos: nat)
    requires WellFormed(c) && FlagsOk(f) && pos <= |body| && body[pos..] == RestBytes(c)
    ensures ReadHead(Whole(body), pos, f) ==
            if c.rawId == [] then Refused(REFUSED_IDENTIFIER)
            else Read(Head(c.keepalive, c.rawId), pos + 4 + |c.rawId|)
    ensures pos + 4 + |c.rawId| <= |body| && body[pos + 4 + |c.rawId|..] == TailBytes(c)
  {
    FullUint16At(c.keepalive, body, pos, FullString(c.rawId) + TailBytes(c));
    FullStringAt(c.rawId, body, pos + 2, TailBytes(c));
  }

  lemma RestAfterHead(body: seq<byte>, pos: nat, pre: Preamble, head: Head, at: nat, r: Reading<Request>)
    requires ReadHead(Whole(body), pos, pre.flags) == Read(head, at)
    requires ReadTail(Whole(body), at, Begun(pre, head), pre.flags) == r
    ensures ReadRest(Whole(body), pos, pre) == r
  {
  }

  lemma BegunIs(c: Request, f: nat)
    requires Describes(f, c)
    ensures Begun(Preamble(c.protocol, f), Head(c.keepalive, c.rawId)) == c.(will := None, username := None, password := None)
  {
  }

  lemma RestReads(c: Request, f: nat, body: seq<byte>, pos: nat)
    requires WellFormed(c) && Describes(f, c) && pos <= |body| && body[pos..] == RestBytes(c)
    ensures ReadRest(Whole(body), pos, Preamble(c.protocol, f)) == Verdict(c, |body|)
  {
    HeadReads(c, f, body, pos);
    if c.rawId != [] {
      var pre, head, at := Preamble(c.protocol, f), Head(c.keepalive, c.rawId), pos + 4 + |c.rawId|;
      BegunIs(c, f);
      TailReads(c, Begun(pre, head), f, body, at);
      RestAfterHead(body, pos, pre, head, at, Verdict(c, |body|));
    }
  }

  lemma BodyOpens(c: Request)
    requires WellFormed(c)
    ensures var body, n := ConnectBody(c), OpeningLength(c.protocol);
            && ReadPreamble(CONNECT, Whole(body)) == Read(Preamble(c.protocol, Flags(c)), n)
            && n <= |body| && body[n..] == RestBytes(c)
  {
    var flags := (Flags(c) % 256) as byte;
    assert flags as nat == Flags(c) && flags % 2 == 0 by {
      FlagsRead(c);
    }
    PreambleReads(c.protocol, flags, RestBytes(c));
  }

  lemma ParseAfterPreamble(command: byte, body: seq<byte>, pre: Preamble, pos: nat, r: Reading<Request>)
    requires ReadPreamble(command, Whole(body)) == Read(pre, pos) && ReadRest(Whole(body), pos, pre) == r
    ensures ParseConnect(command, Whole(body)) == r
  {
  }

  /** The verdict on every well-formed CONNECT: an empty client identifier is refused with code 2, even
      from a clean session, a missing username or password with code 4, and every other request is read
      back whole. */
  lemma ConnectRoundTrip(c: Request)
    requires WellFormed(c)
    ensures ParseConnect(CONNECT, Whole(ConnectBody(c))) == Verdict(c, |ConnectBody(c)|)
  {
    FlagsRead(c);
    BodyOpens(c);
    var body, pre, n := ConnectBody(c), Preamble(c.protocol, Flags(c)), OpeningLength(c.protocol);
    RestReads(c, Flags(c), body, n);
    ParseAfterPreamble(CONNECT, body, pre, n, Verdict(c, |body|));
  }

  // ---------------------------------------------------------------- nothing else is accepted

  /** The bytes from `a` to `b` are these. */
  predicate Spells(body: seq<byte>, a: nat, b: nat, bytes: seq<byte>) { a <= b <= |body| && body[a..b] == bytes }

  lemma SpellsThen(body: seq<byte>, a: nat, b: nat, c: nat, first: seq<byte>, second: seq<byte>)
    requires Spells(body, a, b, first) && Spells(body, b, c, second)
    ensures Spells(body, a, c, first + second)
  {
    assert body[a..c] == body[a..b] + body[b..c];
  }

  lemma TwoStringsBack(body: seq<byte>, pos: nat, s: Text, t: Text)
    requires GetString(Whole(body), pos) == Got(s) && GetString(Whole(body), pos + 2 + |s|) == Got(t)
    ensures Fits(s) && Fits(t) && Spells(body, pos, pos + 4 + |s| + |t|, FullString(s) + FullString(t))
  {
    StringBack(body, pos, s);
    StringBack(body, pos + 2 + |s|, t);
    SpellsThen(body, pos, pos + 2 + |s|, pos + 4 + |s| + |t|, FullString(s), FullString(t));
  }

  lemma WillBack(body: seq<byte>, pos: nat, f: nat, will: Option<Message>, end: nat)
    requires FlagsOk(f) && pos <= |body| && ReadWill(Whole(body), pos, f) == Read(will, end)
    ensures Spells(body, pos, end, WillBytes(will)) && (HasWill(f) <==> will.Some?)
    ensures will.Some? ==>
              var m := will.value;
              && m == WillMessage(m.topic, WillQos(f), WillRetained(f), m.payload)
              && m.topic != [] && Fits(m.topic) && Fits(m.payload)
  {
    if HasWill(f) { TwoStringsBack(body, pos, will.value.topic, will.value.payload); }
  }

  lemma LoginBack(body: seq<byte>, pos: nat, f: nat, login: Login, end: nat)
    requires ReadLogin(Whole(body), pos, f) == Read(login, end)
    ensures HasLogin(f) && Fits(login.username) && Fits(login.password)
    ensures Spells(body, pos, end, FullString(login.username) + FullString(login.password))
  {
    TwoStringsBack(body, pos, login.username, login.password);
  }

  lemma HeadBack(body: seq<byte>, pos: nat, f: nat, head: Head, end: nat)
    requires ReadHead(Whole(body), pos, f) == Read(head, end)
    ensures FlagsOk(f) && head.keepalive < 65536 && Fits(head.rawId) && head.rawId != []
    ensures Spells(body, pos, end, FullUint16(head.keepalive) + FullString(head.rawId))
  {
    Uint16Back(body, pos, head.keepalive);
    StringBack(body, pos + 2, head.rawId);
    SpellsThen(body, pos, pos + 2, end, FullUint16(head.keepalive), FullString(head.rawId));
  }

  /** The flags say what the request says; the lowest bit is left open. */
  lemma FlagsBack(f: nat, c: Request)
    requires f < 256 && FlagsOk(f) && HasLogin(f) && c.username.Some? && c.password.Some?
    requires c.cleanSession == f / 2 % 2 && (HasWill(f) <==> c.will.Some?)
    requires c.will.Some? ==> c.will.value.qos == WillQos(f) && c.will.value.retain == WillRetained(f)
    ensures f == Flags(c) + f % 2 && WillQos(f) <= 2
  {
    BitsOf(f);
  }

  lemma BitsOf(f: nat)
    requires f < 256
    ensures f == f % 2 + 2 * (f / 2 % 2) + 4 * (f / 4 % 2) + 8 * (f / 8 % 4) + 32 * (f / 32 % 2) + 64 * (f / 64 % 2) + 128 * (f / 128 % 2)
  {
    Quotients(f);
    SumOfBits(f, f / 2, f / 4, f / 8, f / 32, f / 64, f / 128);
  }

  lemma Quotients(f: nat)
    ensures f / 4 == f / 2 / 2 && f / 8 == f / 4 / 2 && f / 32 == f / 8 / 4 && f / 64 == f / 32 / 2 && f / 128 == f / 64 / 2
  {
  }

  lemma SumOfBits(f: nat, a: nat, b: nat, c: nat, d: nat, e: nat, g: nat)
    requires a == f / 2 && b == a / 2 && c == b / 2 && d == c / 4 && e == d / 2 && g == e / 2 <= 1
    ensures f == f % 2 + 2 * (a % 2) + 4 * (b % 2) + 8 * (c % 4) + 32 * (d % 2) + 64 * (e % 2) + 128 * (g % 2)
  {
  }

  /** A request that has been read is well formed, and the bytes behind the flags are its own. */
  lemma RestBack(body: seq<byte>, pos: nat, pre: Preamble, c: Request, end: nat)
    requires pos <= |body| && pre.flags < 256 && (pre.protocol == PROTOCOL_31 || pre.protocol == PROTOCOL_311)
    requires ReadRest(Whole(body), pos, pre) == Read(c, end)
    ensures WellFormed(c) && c.rawId != [] && c.username.Some? && c.password.Some? && c.protocol == pre.protocol
    ensures Spells(body, pos, end, RestBytes(c)) && pre.flags == Flags(c) + pre.flags % 2
  {
    var head := ReadHead(Whole(body), pos, pre.flags);
    HeadBack(body, pos, pre.flags, head.value, head.pos);
    var will := ReadWill(Whole(body), head.pos, pre.flags);
    WillBack(body, head.pos, pre.flags, will.value, will.pos);
    var login := ReadLogin(Whole(body), will.pos, pre.flags);
    LoginBack(body, will.pos, pre.flags, login.value, login.pos);
    FlagsBack(pre.flags, c);
    RestSpelled(body, pos, head.pos, will.pos, end, c);
  }

  lemma RestSpelled(body: seq<byte>, a: nat, b: nat, d: nat, end: nat, c: Request)
    requires Spells(body, a, b, FullUint16(c.keepalive) + FullString(c.rawId))
    requires Spells(body, b, d, WillBytes(c.will)) && Spells(body, d, end, LoginBytes(c))
    ensures Spells(body, a, end, RestBytes(c))
  {
    SpellsThen(body, b, d, end, WillBytes(c.will), LoginBytes(c));
    SpellsThen(body, a, b, end, FullUint16(c.keepalive) + FullString(c.rawId), TailBytes(c));
    Regroup(FullUint16(c.keepalive), FullString(c.rawId), TailBytes(c));
  }

  lemma IntroBack(body: seq<byte>, i: Intro)
    requires ReadIntro(Whole(body)) == Got(i)
    ensures Fits(i.name) && |i.name| + 4 <= |body|
    ensures Spells(body, 0, |i.name| + 4, FullString(i.name) + [body[|i.name| + 2], i.flags])
    ensures i.version == body[|i.name| + 2] % 128
  {
    var n := |i.name| + 2;
    StringBack(body, 0, i.name);
    assert body[n..n + 2] == [body[n], body[n + 1]];
    SpellsThen(body, 0, n, n + 2, FullString(i.name), [body[n], i.flags]);
  }

  /** Whatever is accepted as a CONNECT is one: a complete request, behind a name and a version that go together,
      with nothing but the high bit of the version and, for 3.1, the lowest flag and the flags of the fixed header
      left unchecked. */
  lemma ConnectSound(command: byte, body: seq<byte>, c: Request, end: nat) returns (version: byte, flags: byte)
    requires ParseConnect(command, Whole(body)) == Read(c, end)
    ensures WellFormed(c) && c.rawId != [] && c.username.Some? && c.password.Some?
    ensures var name: Text := if c.protocol == 1 then [77, 81, 73, 115, 100, 112] else [77, 81, 84, 84];
            Spells(body, 0, end, FullString(name) + [version, flags] + RestBytes(c))
    ensures version % 128 == if c.protocol == 1 then 3 else 4
    ensures flags as nat == Flags(c) + flags as nat % 2 && (c.protocol == 2 ==> flags % 2 == 0 && command % 16 == 0)
  {
    var i := ReadIntro(Whole(body)).value;
    var pre := ReadPreamble(command, Whole(body));
    version, flags := body[|i.name| + 2], i.flags;
    IntroBack(body, i);
    RestBack(body, pre.pos, pre.value, c, end);
    SpellsThen(body, 0, pre.pos, end, FullString(i.name) + [version, flags], RestBytes(c));
  }
}
