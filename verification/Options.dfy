/** The request options that a client packs into its identifier and user name
    (broker/mqtt/mqtt_session.go:852-895). */
module Options {
  import opened Base
  import opened Texts

  const AMPERSAND: byte := 38
  const COMMA: byte := 44
  const EQUALS: byte := 61
  const BAR: byte := 124

  const SECURE_MODE: Text := [115, 101, 99, 117, 114, 101, 109, 111, 100, 101]  // "securemode"
  const SIGN_METHOD: Text := [115, 105, 103, 110, 109, 101, 116, 104, 111, 100]  // "signmethod"
  const TIMESTAMP: Text := [116, 105, 109, 101, 115, 116, 97, 109, 112]  // "timestamp"

  datatype Context = Context(
    deviceName: Text,
    productId: Text,
    clientId: Text,
    securityMode: int,
    signMethod: Text,
    timestamp: Text)

  // ---------------------------------------------------------------- numbers

  predicate IsDigit(b: byte) { 48 <= b <= 57 }

  function Decimal(s: Text): Option<nat> {
    if s == [] then None
    else
      var n := |s| - 1;
      if !IsDigit(s[n]) then None
      else if n == 0 then Some(s[0] as nat - 48)
      else
        var high := Decimal(s[..n]);
        if high.None? then None else Some(10 * high.value + s[n] as nat - 48)
  }

  const MAX_INT64: int := 0x7FFF_FFFF_FFFF_FFFF
  const MAX_UINT64: int := 0xFFFF_FFFF_FFFF_FFFF

  /** strconv.Atoi on a 64-bit platform. */
  function Atoi(s: Text): Option<int> {
    var negative := s != [] && s[0] == 45;
    var digits := Decimal(if s != [] && (s[0] == 43 || s[0] == 45) then s[1..] else s);
    if digits.None? then None
    else if negative then (if digits.value <= MAX_INT64 + 1 then Some(0 - digits.value as int) else None)
    else if digits.value <= MAX_INT64 then Some(digits.value as int) else None
  }

  /** strconv.ParseUint(s, 10, 64) succeeds. */
  predicate IsUint64(s: Text) { Decimal(s).Some? && Decimal(s).value <= MAX_UINT64 }

  // ---------------------------------------------------------------- pairs

  function TakeOption(c: Context, key: Text, value: Text): Option<Context> {
    if key == SECURE_MODE then
      if Atoi(value).None? then None else Some(c.(securityMode := Atoi(value).value))
    else if key == SIGN_METHOD then Some(c.(signMethod := value))
    else if key == TIMESTAMP then
      if IsUint64(value) then Some(c.(timestamp := value)) else None
    else None
  }

  function TakePair(c: Context, pair: Text): Option<Context> {
    var values := SplitOn(pair, EQUALS);
    if |values| != 2 then None else TakeOption(c, values[0], values[1])
  }

  function TakePairs(c: Context, pairs: seq<Text>): Option<Context>
    decreases |pairs|
  {
    if pairs == [] then Some(c)
    else
      var next := TakePair(c, pairs[0]);
      if next.None? then None else TakePairs(next.value, pairs[1..])
  }

  /** The whole of parseRequestOptions. */
  function ParseOptions(rawId: Text, username: Text): Option<Context> {
    var names, parts := SplitOn(username, AMPERSAND), SplitOn(rawId, BAR);
    if |names| != 2 || |parts| != 2 then None
    else TakePairs(Context(names[0], names[1], parts[0], 0, [], []), SplitOn(parts[1], COMMA))
  }

  method ParseRequestOptions(rawId: Text, username: Text) returns (r: Option<Context>)
    ensures r == ParseOptions(rawId, username)
  {
    var names := SplitOn(username, AMPERSAND);
    if |names| != 2 {
      return None;
    }
    var parts := SplitOn(rawId, BAR);
    if |parts| != 2 {
      return None;
    }
    var ctx := Context(names[0], names[1], parts[0], 0, [], []);
    var pairs := SplitOn(parts[1], COMMA);
    var i := 0;
    while i < |pairs|
      invariant 0 <= i <= |pairs|
      invariant TakePairs(ctx, pairs[i..]) == ParseOptions(rawId, username)
    {
      assert pairs[i..][1..] == pairs[i + 1..];
      var next := TakePair(ctx, pairs[i]);
      if next.None? {
        return None;
      }
      ctx := next.value;
      i := i + 1;
    }
    r := Some(ctx);
  }

  // ---------------------------------------------------------------- what a client sends

  datatype Pair = Pair(key: Text, value: Text)

  predicate Plain(t: Text) { BAR !in t && COMMA !in t && EQUALS !in t }

  predicate PlainPair(p: Pair) { Plain(p.key) && Plain(p.value) }

  function PairText(p: Pair): Text { p.key + [EQUALS] + p.value }

  function PairTexts(pairs: seq<Pair>): seq<Text> {
    seq(|pairs|, i requires 0 <= i < |pairs| => PairText(pairs[i]))
  }

  function RawId(clientId: Text, pairs: seq<Pair>): Text
    requires pairs != []
  {
    clientId + [BAR] + JoinWith(PairTexts(pairs), COMMA)
  }

  function TakeOptions(c: Context, pairs: seq<Pair>): Option<Context>
    decreases |pairs|
  {
    if pairs == [] then Some(c)
    else
      var next := TakeOption(c, pairs[0].key, pairs[0].value);
      if next.None? then None else TakeOptions(next.value, pairs[1..])
  }

  lemma PairReads(c: Context, p: Pair)
    requires PlainPair(p)
    ensures TakePair(c, PairText(p)) == TakeOption(c, p.key, p.value)
    ensures COMMA !in PairText(p) && BAR !in PairText(p)
  {
    SplitOfFirst(p.key, EQUALS, p.value);
    SplitOfPart(p.value, EQUALS);
  }

  lemma {:induction false} PairsRead(c: Context, pairs: seq<Pair>)
    requires forall i :: 0 <= i < |pairs| ==> PlainPair(pairs[i])
    ensures TakePairs(c, PairTexts(pairs)) == TakeOptions(c, pairs)
    decreases |pairs|
  {
    if pairs != [] {
      PairReads(c, pairs[0]);
      assert PairTexts(pairs)[1..] == PairTexts(pairs[1..]);
      var next := TakeOption(c, pairs[0].key, pairs[0].value);
      if next.Some? { PairsRead(next.value, pairs[1..]); }
    }
  }

  lemma {:induction false} NoBarInside(parts: seq<Text>)
    requires parts != [] && forall i :: 0 <= i < |parts| ==> BAR !in parts[i]
    ensures BAR !in JoinWith(parts, COMMA)
  {
    if |parts| > 1 { NoBarInside(parts[1..]); }
  }

  lemma UserReads(device: Text, product: Text)
    requires AMPERSAND !in device && AMPERSAND !in product
    ensures SplitOn(device + [AMPERSAND] + product, AMPERSAND) == [device, product]
  {
    SplitOfFirst(device, AMPERSAND, product);
    SplitOfPart(product, AMPERSAND);
  }

  lemma RawIdReads(clientId: Text, pairs: seq<Pair>)
    requires pairs != [] && BAR !in clientId && forall i :: 0 <= i < |pairs| ==> PlainPair(pairs[i])
    ensures SplitOn(RawId(clientId, pairs), BAR) == [clientId, JoinWith(PairTexts(pairs), COMMA)]
    ensures SplitOn(JoinWith(PairTexts(pairs), COMMA), COMMA) == PairTexts(pairs)
  {
    var texts := PairTexts(pairs);
    forall i | 0 <= i < |texts|
      ensures COMMA !in texts[i] && BAR !in texts[i]
    {
      PairReads(Context([], [], [], 0, [], []), pairs[i]);
    }
    NoBarInside(texts);
    SplitOfFirst(clientId, BAR, JoinWith(texts, COMMA));
    SplitOfPart(JoinWith(texts, COMMA), BAR);
    SplitOfJoin(texts, COMMA);
  }

  /** Every identifier and list of options without the separators inside are read back: the result is the
      client identifier, device and product, and the options taken in order. */
  lemma OptionsRoundTrip(clientId: Text, pairs: seq<Pair>, device: Text, product: Text)
    requires pairs != [] && BAR !in clientId && AMPERSAND !in device && AMPERSAND !in product
    requires forall i :: 0 <= i < |pairs| ==> PlainPair(pairs[i])
    ensures ParseOptions(RawId(clientId, pairs), device + [AMPERSAND] + product) ==
            TakeOptions(Context(device, product, clientId, 0, [], []), pairs)
  {
    UserReads(device, product);
    RawIdReads(clientId, pairs);
    PairsRead(Context(device, product, clientId, 0, [], []), pairs);
  }

  // ---------------------------------------------------------------- what the options mean

  /** A number as a client writes it. */
  function Digits(n: nat): Text { if n < 10 then [(48 + n) as byte] else Digits(n / 10) + [(48 + n % 10) as byte] }

  lemma {:induction false} DecimalReads(n: nat)
    ensures Digits(n) != [] && IsDigit(Digits(n)[0]) && Decimal(Digits(n)) == Some(n)
  {
    if n >= 10 {
      DecimalReads(n / 10);
      var high := Digits(n / 10);
      assert (high + [(48 + n % 10) as byte])[..|high|] == high;
    }
  }

  /** A number is one digit or more, and nothing else. */
  lemma {:induction false} DecimalIff(s: Text)
    ensures Decimal(s).Some? <==> s != [] && forall i :: 0 <= i < |s| ==> 48 <= s[i] <= 57
  {
    if |s| > 1 {
      var n := |s| - 1;
      DecimalIff(s[..n]);
      assert forall i :: 0 <= i < n ==> s[..n][i] == s[i];
    }
  }

  /** Signed numbers of 64 bits are read as what they are, and no others are. */
  lemma AtoiReads(n: nat)
    ensures Atoi(Digits(n)) == Atoi([43] + Digits(n)) == if n <= 0x7FFF_FFFF_FFFF_FFFF then Some(n) else None
    ensures Atoi([45] + Digits(n)) == if n <= 0x8000_0000_0000_0000 then Some(0 - n as int) else None
    ensures IsUint64(Digits(n)) <==> n <= 0xFFFF_FFFF_FFFF_FFFF
  {
    DecimalReads(n);
    AtoiFrom(Digits(n), n);
  }

  lemma AtoiFrom(s: Text, n: nat)
    requires s != [] && IsDigit(s[0]) && Decimal(s) == Some(n)
    ensures Atoi(s) == Atoi([43] + s) == if n <= 0x7FFF_FFFF_FFFF_FFFF then Some(n) else None
    ensures Atoi([45] + s) == if n <= 0x8000_0000_0000_0000 then Some(0 - n as int) else None
  {
    assert ([43] + s)[1..] == s && ([45] + s)[1..] == s;
  }

  /** "securemode" with a number, "signmethod" with anything, "timestamp" with an unsigned number. */
  predicate Acceptable(p: Pair) {
    || (p.key == [115, 101, 99, 117, 114, 101, 109, 111, 100, 101] && Atoi(p.value).Some?)
    || p.key == [115, 105, 103, 110, 109, 101, 116, 104, 111, 100]
    || (p.key == [116, 105, 109, 101, 115, 116, 97, 109, 112] && IsUint64(p.value))
  }

  /** The last value given for a key, or `other` if there is none. */
  function LastValue(pairs: seq<Pair>, key: Text, other: Text): Text {
    if pairs == [] then other
    else if pairs[|pairs| - 1].key == key then pairs[|pairs| - 1].value
    else LastValue(pairs[..|pairs| - 1], key, other)
  }

  lemma {:induction false} LastValueCons(pairs: seq<Pair>, key: Text, other: Text)
    requires pairs != []
    ensures LastValue(pairs, key, other) == LastValue(pairs[1..], key, if pairs[0].key == key then pairs[0].value else other)
  {
    var n := |pairs| - 1;
    if n > 0 && pairs[n].key != key {
      LastValueCons(pairs[..n], key, other);
      assert pairs[..n][1..] == pairs[1..][..n - 1];
    }
  }

  /** The number that a text stands for, if it is one. */
  function Number(t: Text): int { if Atoi(t).Some? then Atoi(t).value else 0 }

  lemma {:induction false} OptionsTaken(c: Context, pairs: seq<Pair>, mode: Text)
    requires c.securityMode == Number(mode)
    ensures var r := TakeOptions(c, pairs);
            && (r.Some? <==> forall i :: 0 <= i < |pairs| ==> Acceptable(pairs[i]))
            && (r.Some? ==>
                  r.value == Context(c.deviceName, c.productId, c.clientId,
                                     Number(LastValue(pairs, SECURE_MODE, mode)),
                                     LastValue(pairs, SIGN_METHOD, c.signMethod),
                                     LastValue(pairs, TIMESTAMP, c.timestamp)))
    decreases |pairs|
  {
    if pairs != [] {
      var p, next := pairs[0], TakeOption(c, pairs[0].key, pairs[0].value);
      KeysDiffer();
      LastValueCons(pairs, SECURE_MODE, mode);
      LastValueCons(pairs, SIGN_METHOD, c.signMethod);
      LastValueCons(pairs, TIMESTAMP, c.timestamp);
      AcceptableCons(pairs);
      if next.Some? { OptionsTaken(next.value, pairs[1..], if p.key == SECURE_MODE then p.value else mode); }
    }
  }

  lemma KeysDiffer()
    ensures SECURE_MODE != SIGN_METHOD && SECURE_MODE != TIMESTAMP && SIGN_METHOD != TIMESTAMP
  {
    assert SECURE_MODE[1] != SIGN_METHOD[1] && |TIMESTAMP| == 9;
  }

  lemma AcceptableCons(pairs: seq<Pair>)
    requires pairs != []
    ensures (forall i :: 0 <= i < |pairs| ==> Acceptable(pairs[i])) <==>
              Acceptable(pairs[0]) && forall i :: 0 <= i < |pairs[1..]| ==> Acceptable(pairs[1..][i])
  {
    assert forall i :: 0 < i < |pairs| ==> pairs[i] == pairs[1..][i - 1];
  }

  /** The whole result, field by field: the request is accepted if and only if every option is known and its
      value is readable, and then each option has its last value. */
  lemma OptionsMean(clientId: Text, pairs: seq<Pair>, device: Text, product: Text)
    requires pairs != [] && BAR !in clientId && AMPERSAND !in device && AMPERSAND !in product
    requires forall i :: 0 <= i < |pairs| ==> PlainPair(pairs[i])
    ensures var r := ParseOptions(RawId(clientId, pairs), device + [AMPERSAND] + product);
            && (r.Some? <==> forall i :: 0 <= i < |pairs| ==> Acceptable(pairs[i]))
            && (r.Some? ==>
                  r.value == Context(deviceName := device, productId := product, clientId := clientId,
                                     securityMode := Number(LastValue(pairs, SECURE_MODE, [])),
                                     signMethod := LastValue(pairs, SIGN_METHOD, []),
                                     timestamp := LastValue(pairs, TIMESTAMP, [])))
  {
    OptionsRoundTrip(clientId, pairs, device, product);
    OptionsTaken(Context(device, product, clientId, 0, [], []), pairs, []);
  }

  // ---------------------------------------------------------------- nothing else is accepted

  lemma {:induction false} PairsBack(c: Context, texts: seq<Text>) returns (pairs: seq<Pair>)
    requires TakePairs(c, texts).Some?
    ensures PairTexts(pairs) == texts
    ensures forall i :: 0 <= i < |pairs| ==> EQUALS !in pairs[i].key && EQUALS !in pairs[i].value
    decreases |texts|
  {
    if texts == [] {
      pairs := [];
    } else {
      var values := SplitOn(texts[0], EQUALS);
      SplitInTwo(texts[0], EQUALS);
      var more := PairsBack(TakePair(c, texts[0]).value, texts[1..]);
      pairs := [Pair(values[0], values[1])] + more;
      assert PairTexts(pairs) == [texts[0]] + PairTexts(more);
    }
  }

  /** Neither separator is inside an option. */
  lemma PlainBack(part: Text, pairs: seq<Pair>, i: nat)
    requires BAR !in part && SplitOn(part, COMMA) == PairTexts(pairs) && i < |pairs|
    requires EQUALS !in pairs[i].key && EQUALS !in pairs[i].value
    ensures PlainPair(pairs[i])
  {
    var text := PairText(pairs[i]);
    assert SplitOn(part, COMMA)[i] == text;
    if BAR in text { SplitBytes(part, COMMA, i, BAR); }
    assert forall b :: b in pairs[i].key || b in pairs[i].value ==> b in text;
  }

  /** Whatever is accepted has this form. */
  lemma OptionsSound(rawId: Text, username: Text)
    returns (clientId: Text, pairs: seq<Pair>, device: Text, product: Text)
    requires ParseOptions(rawId, username).Some?
    ensures pairs != [] && BAR !in clientId && AMPERSAND !in device && AMPERSAND !in product
    ensures forall i :: 0 <= i < |pairs| ==> PlainPair(pairs[i])
    ensures rawId == RawId(clientId, pairs) && username == device + [AMPERSAND] + product
  {
    var names, parts := SplitOn(username, AMPERSAND), SplitOn(rawId, BAR);
    SplitInTwo(username, AMPERSAND);
    SplitInTwo(rawId, BAR);
    clientId, device, product := parts[0], names[0], names[1];
    pairs := PairsBack(Context(device, product, clientId, 0, [], []), SplitOn(parts[1], COMMA));
    assert |pairs| == |PairTexts(pairs)|;
    JoinOfSplit(parts[1], COMMA);
    forall i | 0 <= i < |pairs|
      ensures PlainPair(pairs[i])
    {
      PlainBack(parts[1], pairs, i);
    }
  }

  /** The comment in the source closes the options with a second bar; no identifier of that form is ever
      accepted. */
  lemma ClosingBarRefused(clientId: Text, options: Text, username: Text)
    ensures ParseOptions(clientId + [BAR] + options + [BAR], username) == None
  {
    var front := clientId + [BAR] + options;
    SplitAtMiddle(clientId, BAR, options);
    SplitAtMiddle(front, BAR, []);
    assert front + [BAR] + [] == front + [BAR];
  }
}
