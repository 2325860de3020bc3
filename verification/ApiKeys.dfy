/**
API keys (freeciv-proxy/auth.py): a key carries the player, the game and the time it was made,
signed with a prefix of a keyed hash that the model leaves open.
*/
module ApiKeys {
  import opened Options
  import opened Text

  /**
  `hmac(secret, payload)` gives the bytes of the hash; an unset secret is empty. Integers from
  `floatLimit` on are too large to be converted to a float.
  */
  datatype Auth = Auth(secret: string, hmac: (string, string) -> seq<bv8>, maxAgeDays: int, floatLimit: nat)

  predicate FitsFloat(auth: Auth, n: int) {
    n < auth.floatLimit && -n < auth.floatLimit
  }

  const HEX_DIGITS: string := "0123456789abcdef"

  /** The two hexadecimal digits of a byte. */
  function High(b: bv8): char {
    HEX_DIGITS[(b / 16) as int]
  }

  function Low(b: bv8): char {
    HEX_DIGITS[(b % 16) as int]
  }

  function Hex(bytes: seq<bv8>): string {
    if bytes == [] then "" else [High(bytes[0])] + [Low(bytes[0])] + Hex(bytes[1..])
  }

  function Take(s: string, n: nat): string {
    if |s| <= n then s else s[..n]
  }

  /** The signature in a key: the first 16 hexadecimal digits of the hash. */
  function Signature(auth: Auth, payload: string): string {
    Take(Hex(auth.hmac(auth.secret, payload)), 16)
  }

  function Payload(player: string, game: string, time: string): string {
    player + ":" + game + ":" + time
  }

  function Key(auth: Auth, payload: string): string {
    "fcv_" + payload + "_" + Signature(auth, payload)
  }

  /** `generate_api_key`, with the clock read at `clock`. */
  function GenerateApiKey(auth: Auth, player: int, game: string, clock: real): Option<string> {
    if auth.secret == "" then None
    else Some(Key(auth, Payload(PrintInt(player), game, PrintInt(clock.Floor))))
  }

  /**
  `Raised` is an exception that nobody catches: the TypeError of comparing a signature with
  non-ASCII characters, or the OverflowError of subtracting a time too large for a float.
  */
  datatype Verdict = Accepted(player: int, game: string) | Rejected | Raised

  predicate Ascii(s: string) {
    forall i | 0 <= i < |s| :: s[i] < 128 as char
  }

  function MaxAge(auth: Auth): int {
    auth.maxAgeDays * 24 * 3600
  }

  /** What is left of `validate_api_key` once the signature has matched. */
  function ReadPayload(auth: Auth, payload: string, clock: real): Verdict {
    var parts := Split(payload, ':');
    if |parts| != 3 then Rejected
    else
      var player, time := ParseInt(parts[0]), ParseInt(parts[2]);
      if player.None? || time.None? then Rejected
      else if !FitsFloat(auth, time.value) then Raised
      else if clock - time.value as real > MaxAge(auth) as real then Rejected
      else Accepted(player.value, parts[1])
  }

  function ValidateApiKey(auth: Auth, key: string, clock: real): Verdict {
    if auth.secret == "" || key == "" then Rejected
    else if !("fcv_" <= key) then Rejected
    else match SplitLast(key[4..], '_')
      case None => Rejected
      case Some((payload, signature)) =>
        if !Ascii(signature) then Raised
        else if signature != Signature(auth, payload) then Rejected
        else ReadPayload(auth, payload, clock)
  }

  // ---------------------------------------------------------------- the parts of a key

  lemma DigitsArePlain(b: bv8)
    ensures High(b) < 128 as char && Low(b) < 128 as char && High(b) != '_' && Low(b) != '_'
  {
    assert forall i | 0 <= i < 16 :: HEX_DIGITS[i] < 128 as char && HEX_DIGITS[i] != '_';
  }

  lemma {:induction false} HexIsPlain(bytes: seq<bv8>)
    ensures Ascii(Hex(bytes)) && '_' !in Hex(bytes)
  {
    if bytes != [] {
      hide High, Low;
      HexIsPlain(bytes[1..]);
      DigitsArePlain(bytes[0]);
    }
  }

  lemma SignatureIsPlain(auth: Auth, payload: string)
    ensures Ascii(Signature(auth, payload)) && '_' !in Signature(auth, payload)
  {
    HexIsPlain(auth.hmac(auth.secret, payload));
  }

  lemma KeyTail(auth: Auth, key: string, payload: string, signature: string)
    requires "fcv_" <= key
    ensures key[4..] == payload + "_" + signature <==> key == "fcv_" + payload + "_" + signature
  {
    assert key == "fcv_" + key[4..];
    assert "fcv_" + payload + "_" + signature == "fcv_" + (payload + "_" + signature);
    assert (payload + "_" + signature) == ("fcv_" + (payload + "_" + signature))[4..];
  }

  /** A key made for a payload leads back to exactly that payload. */
  lemma KeyLeadsToPayload(auth: Auth, payload: string, clock: real)
    requires auth.secret != ""
    ensures ValidateApiKey(auth, Key(auth, payload), clock) == ReadPayload(auth, payload, clock)
  {
    hide Signature, ReadPayload, SplitLast;
    var key, signature := Key(auth, payload), Signature(auth, payload);
    SignatureIsPlain(auth, payload);
    assert "fcv_" + payload + "_" + signature == "fcv_" + (payload + "_" + signature);
    KeyTail(auth, key, payload, signature);
    SplitLastIff(key[4..], '_', payload, signature);
  }

  lemma ThreeParts(payload: string, player: string, game: string, time: string)
    ensures Split(payload, ':') == [player, game, time] <==>
            payload == Payload(player, game, time) && ':' !in player && ':' !in game && ':' !in time
  {
    var parts := [player, game, time];
    SplitIff(payload, ':', parts);
    assert parts[1..] == [game, time] && [game, time][1..] == [time];
    assert Join([game, time], ':') == game + ":" + time;
    assert Join(parts, ':') == player + ":" + (game + ":" + time);
    assert Join(parts, ':') == Payload(player, game, time);
    assert Free(parts, ':') <==> ':' !in player && ':' !in game && ':' !in time by {
      assert parts[0] == player && parts[1] == game && parts[2] == time;
    }
  }

  // ---------------------------------------------------------------- round trip

  /** A payload whose outer parts have no ':' splits in three exactly when the middle has none either. */
  lemma PartsOf(player: string, game: string, time: string)
    requires ':' !in player && ':' !in time
    ensures |Split(Payload(player, game, time), ':')| == 3 <==> ':' !in game
    ensures ':' !in game ==> Split(Payload(player, game, time), ':') == [player, game, time]
  {
    var payload := Payload(player, game, time);
    var parts := Split(payload, ':');
    ThreeParts(payload, player, game, time);
    if |parts| == 3 && ':' in game {
      ThreeParts(payload, parts[0], parts[1], parts[2]);
      assert parts == [parts[0], parts[1], parts[2]];
      assert payload == player + ":" + (game + ":" + time);
      assert payload == parts[0] + ":" + (parts[1] + ":" + parts[2]);
      FirstPartAgrees(player, game + ":" + time, parts[0], parts[1] + ":" + parts[2]);
      LastColonAgrees(game, time, parts[1], parts[2]);
    }
  }

  lemma FirstPartAgrees(a: string, rest: string, b: string, tail: string)
    requires ':' !in a && ':' !in b && a + ":" + rest == b + ":" + tail
    ensures a == b && rest == tail
  {
    var s := a + ":" + rest;
    assert s[|a|] == ':' && s[|b|] == ':';
    assert forall i | 0 <= i < |a| :: s[i] == a[i];
    assert forall i | 0 <= i < |b| :: s[i] == b[i];
    assert a == s[..|a|] && b == s[..|a|];
    assert rest == s[|a| + 1..] && tail == s[|a| + 1..];
  }

  lemma LastColonAgrees(front: string, back: string, a: string, b: string)
    requires ':' !in back && ':' !in b && front + ":" + back == a + ":" + b
    ensures front == a && back == b
  {
    SplitLastIff(front + ":" + back, ':', front, back);
    SplitLastIff(front + ":" + back, ':', a, b);
  }

  /**
  The round trip. A generated key is accepted, for the same player and the same game, exactly when
  the game id has no ':' in it and the key is not too old; otherwise it is rejected. (A clock that
  is a float never shows a time too large for one.)
  */
  lemma GeneratedKeyValidatesIff(auth: Auth, player: int, game: string, made: real, clock: real)
    requires auth.secret != ""
    ensures GenerateApiKey(auth, player, game, made).Some?
    ensures ValidateApiKey(auth, GenerateApiKey(auth, player, game, made).value, clock) ==
            if ':' in game then Rejected
            else if !FitsFloat(auth, made.Floor) then Raised
            else if clock - made.Floor as real <= MaxAge(auth) as real then Accepted(player, game)
            else Rejected
  {
    hide ValidateApiKey, Key, Split, ParseInt, PrintInt, Payload;
    var time := made.Floor;
    ParsePrint(player);
    ParsePrint(time);
    KeyLeadsToPayload(auth, Payload(PrintInt(player), game, PrintInt(time)), clock);
    PartsOf(PrintInt(player), game, PrintInt(time));
  }

  // ---------------------------------------------------------------- signatures, digit by digit

  lemma {:induction false} HexAt(bytes: seq<bv8>)
    ensures |Hex(bytes)| == 2 * |bytes|
    ensures forall i | 0 <= i < |bytes| :: Hex(bytes)[2 * i] == High(bytes[i]) && Hex(bytes)[2 * i + 1] == Low(bytes[i])
  {
    hide High, Low;
    if bytes != [] {
      var rest := Hex(bytes[1..]);
      HexAt(bytes[1..]);
      assert Hex(bytes) == [High(bytes[0]), Low(bytes[0])] + rest;
      forall i | 0 <= i < |bytes|
        ensures Hex(bytes)[2 * i] == High(bytes[i]) && Hex(bytes)[2 * i + 1] == Low(bytes[i])
      {
        if i > 0 {
          assert rest[2 * (i - 1)] == High(bytes[1..][i - 1]) && rest[2 * (i - 1) + 1] == Low(bytes[1..][i - 1]);
        }
      }
    }
  }

  /** `signature` is the hash of the payload under the secret: two digits a byte, 16 at most. */
  ghost predicate Signs(auth: Auth, payload: string, signature: string) {
    var hash := auth.hmac(auth.secret, payload);
    && |signature| == (if |hash| >= 8 then 16 else 2 * |hash|)
    && forall i | 0 <= i < 8 && 2 * i < |signature| ::
         && signature[2 * i] == "0123456789abcdef"[(hash[i] / 16) as int]
         && signature[2 * i + 1] == "0123456789abcdef"[(hash[i] % 16) as int]
  }

  lemma SignsInDigits(auth: Auth, payload: string, signature: string)
    ensures
      var hash := auth.hmac(auth.secret, payload);
      Signs(auth, payload, signature) <==>
      && |signature| == (if |hash| >= 8 then 16 else 2 * |hash|)
      && forall i | 0 <= i < 8 && 2 * i < |signature| ::
           signature[2 * i] == High(hash[i]) && signature[2 * i + 1] == Low(hash[i])
  {
  }

  lemma SignsIff(auth: Auth, payload: string, signature: string)
    ensures Signs(auth, payload, signature) <==> signature == Signature(auth, payload)
  {
    hide Signs, High, Low;
    var hash, expected := auth.hmac(auth.secret, payload), Signature(auth, payload);
    HexAt(hash);
    SignsInDigits(auth, payload, expected);
    SignsInDigits(auth, payload, signature);
    if Signs(auth, payload, signature) {
      forall k | 0 <= k < |signature| ensures signature[k] == expected[k] {
        var i := k / 2;
        assert k == 2 * i || k == 2 * i + 1;
        assert expected[2 * i] == signature[2 * i] && expected[2 * i + 1] == signature[2 * i + 1];
      }
    }
  }

  lemma DigitsDetermineByte(a: bv8, b: bv8)
    requires High(a) == High(b) && Low(a) == Low(b)
    ensures a == b
  {
    DigitsDiffer((a / 16) as int, (b / 16) as int);
    DigitsDiffer((a % 16) as int, (b % 16) as int);
    SameHalves(a, b);
  }

  lemma DigitsDiffer(i: nat, j: nat)
    requires i < 16 && j < 16 && HEX_DIGITS[i] == HEX_DIGITS[j]
    ensures i == j
  {
  }

  lemma SameHalves(a: bv8, b: bv8)
    requires (a / 16) as int == (b / 16) as int && (a % 16) as int == (b % 16) as int
    ensures a == b
  {
    assert (a as int) == 16 * ((a / 16) as int) + ((a % 16) as int);
    assert (b as int) == 16 * ((b / 16) as int) + ((b % 16) as int);
  }

  /** Two payloads have the same signature exactly when their hashes begin with the same eight bytes. */
  lemma SignaturesAgreeIff(auth: Auth, p: string, q: string)
    requires |auth.hmac(auth.secret, p)| >= 8 && |auth.hmac(auth.secret, q)| >= 8
    ensures Signature(auth, p) == Signature(auth, q) <==>
            auth.hmac(auth.secret, p)[..8] == auth.hmac(auth.secret, q)[..8]
  {
    hide Signature, Signs, High, Low;
    var h, g, signature := auth.hmac(auth.secret, p), auth.hmac(auth.secret, q), Signature(auth, p);
    SignsIff(auth, p, signature);
    SignsIff(auth, q, signature);
    SignsInDigits(auth, p, signature);
    SignsInDigits(auth, q, signature);
    if signature == Signature(auth, q) {
      forall i | 0 <= i < 8 ensures h[i] == g[i] {
        assert signature[2 * i] == High(h[i]) == High(g[i]) && signature[2 * i + 1] == Low(h[i]) == Low(g[i]);
        DigitsDetermineByte(h[i], g[i]);
      }
    }
    if h[..8] == g[..8] {
      assert forall i | 0 <= i < 8 :: h[i] == h[..8][i] && g[i] == g[..8][i];
    }
  }

  /**
  One payload's signature under another payload: rejected, whoever they name, unless the two hashes
  begin with the same eight bytes.
  */
  lemma ForeignSignatureIsRejected(auth: Auth, p: string, q: string, clock: real)
    requires auth.secret != "" && |auth.hmac(auth.secret, p)| >= 8 && |auth.hmac(auth.secret, q)| >= 8
    requires auth.hmac(auth.secret, p)[..8] != auth.hmac(auth.secret, q)[..8]
    ensures
      var tail := Key(auth, p)[|"fcv_" + p + "_"|..];
      Signs(auth, p, tail) && ValidateApiKey(auth, "fcv_" + q + "_" + tail, clock) == Rejected
  {
    hide Signature, SplitLast, Signs;
    var signature := Signature(auth, p);
    assert Key(auth, p)[|"fcv_" + p + "_"|..] == signature;
    SignsIff(auth, p, signature);
    SignatureIsPlain(auth, p);
    SignaturesAgreeIff(auth, p, q);
    var key := "fcv_" + q + "_" + signature;
    assert key == "fcv_" + (q + "_" + signature);
    KeyTail(auth, key, q, signature);
    SplitLastIff(key[4..], '_', q, signature);
  }

  // ---------------------------------------------------------------- what is accepted

  /** A key in the documented form, with the right signature. */
  ghost predicate Signed(auth: Auth, key: string, player: string, game: string, time: string) {
    var payload := player + ":" + game + ":" + time;
    && ':' !in player && ':' !in game && ':' !in time
    && |key| >= |payload| + 5 && key[..|payload| + 5] == "fcv_" + payload + "_"
    && Signs(auth, payload, key[|payload| + 5..])
  }

  lemma SignedIff(auth: Auth, key: string, player: string, game: string, time: string)
    ensures Signed(auth, key, player, game, time) <==>
            && ':' !in player && ':' !in game && ':' !in time
            && key == Key(auth, Payload(player, game, time))
  {
    hide Signature, Signs;
    var payload := Payload(player, game, time);
    if |key| >= |payload| + 5 {
      assert key == key[..|payload| + 5] + key[|payload| + 5..];
      SignsIff(auth, payload, key[|payload| + 5..]);
    }
    if key == Key(auth, payload) {
      assert key == ("fcv_" + payload + "_") + Signature(auth, payload);
    }
  }

  /** What is generated: nothing without a secret, else a signed key for the player, the game and the second. */
  lemma GeneratedIs(auth: Auth, player: int, game: string, clock: real)
    ensures GenerateApiKey(auth, player, game, clock) == None <==> auth.secret == ""
    ensures
      auth.secret != "" ==>
        var key, payload := GenerateApiKey(auth, player, game, clock).value,
                            PrintInt(player) + ":" + game + ":" + PrintInt(clock.Floor);
        && |key| >= |payload| + 5 && key[..|payload| + 5] == "fcv_" + payload + "_"
        && Signs(auth, payload, key[|payload| + 5..])
  {
    hide Signature, Signs;
    if auth.secret != "" {
      var payload := Payload(PrintInt(player), game, PrintInt(clock.Floor));
      var key := Key(auth, payload);
      assert key == ("fcv_" + payload + "_") + Signature(auth, payload);
      assert key[|payload| + 5..] == Signature(auth, payload);
      SignsIff(auth, payload, Signature(auth, payload));
    }
  }

  /** ... with numbers where numbers belong, and young enough. */
  ghost predicate Genuine(auth: Auth, key: string, player: string, game: string, time: string, clock: real) {
    && auth.secret != "" && Signed(auth, key, player, game, time)
    && ParseInt(player).Some? && ParseInt(time).Some? && FitsFloat(auth, ParseInt(time).value)
    && clock - ParseInt(time).value as real <= (auth.maxAgeDays * 86400) as real
  }

  /** Exactly the genuine keys are accepted, each for the player and the game written in it. */
  lemma AcceptedIffGenuine(auth: Auth, key: string, clock: real, id: int, game: string)
    ensures ValidateApiKey(auth, key, clock) == Accepted(id, game) <==>
            exists player, time :: Genuine(auth, key, player, game, time, clock) && ParseInt(player) == Some(id)
  {
    hide Split, ParseInt, SplitLast, Signature, Payload, Signed;
    if ValidateApiKey(auth, key, clock) == Accepted(id, game) {
      var (payload, signature) := SplitLast(key[4..], '_').value;
      SplitLastIff(key[4..], '_', payload, signature);
      KeyTail(auth, key, payload, signature);
      var parts := Split(payload, ':');
      assert parts == [parts[0], parts[1], parts[2]];
      ThreeParts(payload, parts[0], parts[1], parts[2]);
      SignedIff(auth, key, parts[0], game, parts[2]);
      assert Genuine(auth, key, parts[0], game, parts[2], clock);
    }
    forall player, time | Genuine(auth, key, player, game, time, clock) && ParseInt(player) == Some(id)
      ensures ValidateApiKey(auth, key, clock) == Accepted(id, game)
    {
      SignedIff(auth, key, player, game, time);
      KeyLeadsToPayload(auth, Payload(player, game, time), clock);
      ThreeParts(Payload(player, game, time), player, game, time);
    }
  }

  /** A key in the documented form, rightly signed, whose time no float can hold. */
  ghost predicate Overflows(auth: Auth, key: string, player: string, game: string, time: string) {
    && Signed(auth, key, player, game, time)
    && ParseInt(player).Some? && ParseInt(time).Some? && !FitsFloat(auth, ParseInt(time).value)
  }

  /** A key whose signature has a character outside ASCII. */
  ghost predicate Unreadable(key: string, payload: string, signature: string) {
    key == "fcv_" + payload + "_" + signature && '_' !in signature && !Ascii(signature)
  }

  lemma UnreadableRaises(auth: Auth, key: string, clock: real, payload: string, signature: string)
    requires auth.secret != "" && Unreadable(key, payload, signature)
    ensures ValidateApiKey(auth, key, clock) == Raised
  {
    hide SplitLast, Ascii;
    assert key == "fcv_" + (payload + "_" + signature);
    KeyTail(auth, key, payload, signature);
    SplitLastIff(key[4..], '_', payload, signature);
  }

  lemma OverflowRaises(auth: Auth, key: string, clock: real, player: string, game: string, time: string)
    requires auth.secret != "" && Overflows(auth, key, player, game, time)
    ensures ValidateApiKey(auth, key, clock) == Raised
  {
    hide Split, ParseInt, Key, Payload, Signed;
    SignedIff(auth, key, player, game, time);
    KeyLeadsToPayload(auth, Payload(player, game, time), clock);
    ThreeParts(Payload(player, game, time), player, game, time);
  }

  /** Only such a signature, or such a time under a right signature, makes validation raise. */
  lemma RaisedIff(auth: Auth, key: string, clock: real)
    ensures ValidateApiKey(auth, key, clock) == Raised <==>
            && auth.secret != ""
            && ((exists payload, signature :: Unreadable(key, payload, signature))
                || (exists player, game, time :: Overflows(auth, key, player, game, time)))
  {
    hide Split, ParseInt, SplitLast, Signature, Payload, Ascii, Signed;
    if ValidateApiKey(auth, key, clock) == Raised {
      var (payload, signature) := SplitLast(key[4..], '_').value;
      SplitLastIff(key[4..], '_', payload, signature);
      KeyTail(auth, key, payload, signature);
      if Ascii(signature) {
        var parts := Split(payload, ':');
        assert parts == [parts[0], parts[1], parts[2]];
        ThreeParts(payload, parts[0], parts[1], parts[2]);
        SignedIff(auth, key, parts[0], parts[1], parts[2]);
        assert Overflows(auth, key, parts[0], parts[1], parts[2]);
      } else {
        assert Unreadable(key, payload, signature);
      }
    }
    if auth.secret != "" {
      forall payload, signature | Unreadable(key, payload, signature)
        ensures ValidateApiKey(auth, key, clock) == Raised
      {
        UnreadableRaises(auth, key, clock, payload, signature);
      }
      forall player, game, time | Overflows(auth, key, player, game, time)
        ensures ValidateApiKey(auth, key, clock) == Raised
      {
        OverflowRaises(auth, key, clock, player, game, time);
      }
    }
  }
}
