/** Proof-of-work challenges and their text form: 95 bytes, the integers in little-endian order,
    written in hexadecimal after `0x`. */
module FaucetChallenges {
  import opened Prelude

  type byte = x: int | 0 <= x < 256

  const U64 := 0x1_0000_0000_0000_0000
  const ENCODED_SIZE := 95

  datatype Challenge = Challenge(target: nat, timestamp: nat, account: seq<byte>,
                                 key: seq<byte>, signature: seq<byte>)
  {
    /** What the types of the node guarantee. */
    predicate Valid() {
      && target < U64 && timestamp < U64
      && |account| == 15 && |key| == 32 && |signature| == 32
    }
  }

  /** The keyed hash that signs a challenge, and which account ids are well formed. */
  datatype Scheme = Scheme(sign: (seq<byte>, nat, nat, seq<byte>, seq<byte>) -> seq<byte>,
                           isAccount: seq<byte> -> bool)
  {
    ghost predicate Valid() {
      forall secret, target, timestamp, account, key ::
        |sign(secret, target, timestamp, account, key)| == 32
    }
  }

  datatype DecodeError = MissingPowParameters | ServerSignaturesDoNotMatch

  function NewChallenge(scheme: Scheme, secret: seq<byte>, target: nat, timestamp: nat,
                        account: seq<byte>, key: seq<byte>): Challenge
  {
    Challenge(target, timestamp, account, key,
              scheme.sign(secret, target, timestamp, account, key))
  }

  /** Not yet valid challenges count as expired, as does everything older than the lifetime. */
  predicate IsExpired(timestamp: nat, now: nat, lifetime: nat) {
    (if now >= timestamp then now - timestamp else U64 - 1) > lifetime
  }

  // ---------------------------------------------------------------------------------------------
  // Integers

  function ToLittleEndian(x: nat, n: nat): (s: seq<byte>)
    ensures |s| == n
  {
    if n == 0 then [] else [x % 256] + ToLittleEndian(x / 256, n - 1)
  }

  function FromLittleEndian(s: seq<byte>): nat {
    if s == [] then 0 else s[0] + 256 * FromLittleEndian(s[1..])
  }

  function Power(base: nat, n: nat): (p: nat)
    ensures base > 0 ==> p > 0
  {
    if n == 0 then 1 else base * Power(base, n - 1)
  }

  lemma {:induction false} DivideBound(x: nat, p: nat)
    requires x < 256 * p
    ensures x / 256 < p
  {
  }

  lemma {:induction false} FromTo(x: nat, n: nat)
    requires x < Power(256, n)
    ensures FromLittleEndian(ToLittleEndian(x, n)) == x
    decreases n
  {
    if n > 0 {
      DivideBound(x, Power(256, n - 1));
      FromTo(x / 256, n - 1);
      assert ToLittleEndian(x, n)[1..] == ToLittleEndian(x / 256, n - 1);
    }
  }

  lemma {:induction false} ToFrom(s: seq<byte>)
    ensures ToLittleEndian(FromLittleEndian(s), |s|) == s
    ensures FromLittleEndian(s) < Power(256, |s|)
    decreases |s|
  {
    if s != [] {
      var rest := FromLittleEndian(s[1..]);
      ToFrom(s[1..]);
      assert (s[0] + 256 * rest) / 256 == rest && (s[0] + 256 * rest) % 256 == s[0];
      assert [s[0]] + s[1..] == s;
    }
  }

  lemma EightBytes()
    ensures Power(256, 8) == U64
  {
    assert Power(256, 2) == 0x1_0000;
    assert Power(256, 4) == 0x1_0000_0000 by {
      assert Power(256, 4) == 256 * (256 * Power(256, 2));
    }
    assert Power(256, 6) == 256 * (256 * Power(256, 4));
    assert Power(256, 8) == 256 * (256 * Power(256, 6));
  }

  // ---------------------------------------------------------------------------------------------
  // Hexadecimal

  const DIGITS := "0123456789abcdef"

  function Digit(v: nat): char
    requires v < 16
  {
    DIGITS[v]
  }

  /** The value of a digit of either case. */
  function Value(c: char): (v: Option<nat>)
    ensures v.Some? ==> v.value < 16
  {
    if '0' <= c <= '9' then Some(c as nat - '0' as nat)
    else if 'a' <= c <= 'f' then Some(c as nat - 'a' as nat + 10)
    else if 'A' <= c <= 'F' then Some(c as nat - 'A' as nat + 10)
    else None
  }

  function ToHex(s: seq<byte>): (text: string)
    ensures |text| == 2 * |s|
  {
    if s == [] then "" else [Digit(s[0] / 16), Digit(s[0] % 16)] + ToHex(s[1..])
  }

  function FromHex(text: string): (s: Option<seq<byte>>)
    requires |text| % 2 == 0
    ensures s.Some? ==> |s.value| == |text| / 2
  {
    if text == "" then Some([]) else
      var high, low, rest := Value(text[0]), Value(text[1]), FromHex(text[2..]);
      if high.None? || low.None? || rest.None? then None
      else Some([high.value * 16 + low.value] + rest.value)
  }

  /** Lower case, for digits. */
  function Lower(text: string): string {
    if text == "" then "" else
      [if 'A' <= text[0] <= 'F' then (text[0] as nat - 'A' as nat + 'a' as nat) as char
       else text[0]] + Lower(text[1..])
  }

  lemma DigitValue(v: nat)
    requires v < 16
    ensures Value(Digit(v)) == Some(v)
  {
    assert DIGITS[0] == '0' && DIGITS[1] == '1' && DIGITS[2] == '2' && DIGITS[3] == '3';
    assert DIGITS[4] == '4' && DIGITS[5] == '5' && DIGITS[6] == '6' && DIGITS[7] == '7';
    assert DIGITS[8] == '8' && DIGITS[9] == '9' && DIGITS[10] == 'a' && DIGITS[11] == 'b';
    assert DIGITS[12] == 'c' && DIGITS[13] == 'd' && DIGITS[14] == 'e' && DIGITS[15] == 'f';
  }

  lemma Halves(b: byte)
    ensures b / 16 * 16 + b % 16 == b && b / 16 < 16
  {
  }

  lemma {:induction false} HexRoundTrip(s: seq<byte>)
    ensures FromHex(ToHex(s)) == Some(s)
    decreases |s|
  {
    if s != [] {
      HexRoundTrip(s[1..]);
      DigitValue(s[0] / 16);
      DigitValue(s[0] % 16);
      Halves(s[0]);
      hide Digit, Value;
      assert ToHex(s)[2..] == ToHex(s[1..]);
      assert [s[0]] + s[1..] == s;
    }
  }

  /** What a text decodes to determines the text up to the case of its digits. */
  lemma {:induction false} HexIsCanonical(text: string)
    requires |text| % 2 == 0 && FromHex(text).Some?
    ensures ToHex(FromHex(text).value) == Lower(text)
    decreases |text|
  {
    if text != "" {
      HexIsCanonical(text[2..]);
      LowerDigit(text[0]);
      LowerDigit(text[1]);
      LowerTwo(text);
      hide Value, Digit, Lower;
      var high, low := Value(text[0]).value, Value(text[1]).value;
      var s := FromHex(text).value;
      assert s[0] == high * 16 + low && s[1..] == FromHex(text[2..]).value;
      assert s[0] / 16 == high && s[0] % 16 == low;
    }
  }

  lemma {:induction false} LowerTwo(text: string)
    requires |text| >= 2
    ensures Lower(text) == Lower([text[0]]) + Lower([text[1]]) + Lower(text[2..])
  {
    assert text[1..][1..] == text[2..];
    assert [text[0]][1..] == "" && [text[1]][1..] == "";
  }

  lemma LowerDigit(c: char)
    requires Value(c).Some?
    ensures Lower([c]) == [Digit(Value(c).value)]
  {
    var v := Value(c).value;
    DigitValue(v);
    assert DIGITS[0] == '0' && DIGITS[1] == '1' && DIGITS[2] == '2' && DIGITS[3] == '3';
    assert DIGITS[4] == '4' && DIGITS[5] == '5' && DIGITS[6] == '6' && DIGITS[7] == '7';
    assert DIGITS[8] == '8' && DIGITS[9] == '9' && DIGITS[10] == 'a' && DIGITS[11] == 'b';
    assert DIGITS[12] == 'c' && DIGITS[13] == 'd' && DIGITS[14] == 'e' && DIGITS[15] == 'f';
  }

  predicate IsHexDigit(c: char) {
    '0' <= c <= '9' || 'a' <= c <= 'f' || 'A' <= c <= 'F'
  }

  predicate OnlyDigits(text: string) {
    forall i :: 0 <= i < |text| ==> IsHexDigit(text[i])
  }

  lemma {:induction false} FromHexExactly(text: string)
    requires |text| % 2 == 0
    ensures FromHex(text).Some? <==> OnlyDigits(text)
    decreases |text|
  {
    if text != "" {
      FromHexExactly(text[2..]);
      assert forall i :: 2 <= i < |text| ==> text[i] == text[2..][i - 2];
      assert text == [text[0], text[1]] + text[2..];
    }
  }

  /** The same character, or the same digit in upper case. */
  predicate SameDigit(c: char, lower: char) {
    c == lower || ('A' <= c <= 'F' && c as nat + 'a' as nat == lower as nat + 'A' as nat)
  }

  lemma {:induction false} LowerAt(text: string)
    ensures |Lower(text)| == |text|
    ensures forall i :: 0 <= i < |text| ==>
      SameDigit(text[i], Lower(text)[i]) && !('A' <= Lower(text)[i] <= 'F')
    decreases |text|
  {
    if text != "" {
      LowerAt(text[1..]);
    }
  }

  lemma {:induction false} HexIsLower(s: seq<byte>)
    ensures forall i :: 0 <= i < |ToHex(s)| ==>
      IsHexDigit(ToHex(s)[i]) && !('A' <= ToHex(s)[i] <= 'F')
    decreases |s|
  {
    if s != [] {
      HexIsLower(s[1..]);
      LowerCase(s[0] / 16);
      LowerCase(s[0] % 16);
      hide Digit;
    }
  }

  lemma LowerCase(v: nat)
    requires v < 16
    ensures IsHexDigit(Digit(v)) && !('A' <= Digit(v) <= 'F')
  {
    assert DIGITS[0] == '0' && DIGITS[1] == '1' && DIGITS[2] == '2' && DIGITS[3] == '3';
    assert DIGITS[4] == '4' && DIGITS[5] == '5' && DIGITS[6] == '6' && DIGITS[7] == '7';
    assert DIGITS[8] == '8' && DIGITS[9] == '9' && DIGITS[10] == 'a' && DIGITS[11] == 'b';
    assert DIGITS[12] == 'c' && DIGITS[13] == 'd' && DIGITS[14] == 'e' && DIGITS[15] == 'f';
  }

  // ---------------------------------------------------------------------------------------------
  // The whole challenge

  function Bytes(c: Challenge): seq<byte> {
    ToLittleEndian(c.target, 8) + ToLittleEndian(c.timestamp, 8) + c.account + c.key + c.signature
  }

  function Encode(c: Challenge): string {
    "0x" + ToHex(Bytes(c))
  }

  function HexToBytes(text: string): Option<seq<byte>> {
    if |text| != 2 + 2 * ENCODED_SIZE || text[..2] != "0x" then None else FromHex(text[2..])
  }

  function Parts(s: seq<byte>): Challenge
    requires |s| == ENCODED_SIZE
  {
    Challenge(FromLittleEndian(s[..8]), FromLittleEndian(s[8..16]), s[16..31], s[31..63], s[63..])
  }

  /** `None` is a panic: the account id is parsed and unwrapped before the signature is looked
      at. */
  function Decode(scheme: Scheme, secret: seq<byte>, text: string)
      : Option<Result<Challenge, DecodeError>>
  {
    var s := HexToBytes(text);
    if s.None? then Some(Err(MissingPowParameters))
    else
      var c := Parts(s.value);
      if !scheme.isAccount(c.account) then None
      else if c.signature == scheme.sign(secret, c.target, c.timestamp, c.account, c.key)
      then Some(Ok(c))
      else Some(Err(ServerSignaturesDoNotMatch))
  }

  lemma FieldsOf(c: Challenge)
    requires c.Valid()
    ensures var s := Bytes(c);
      && |s| == ENCODED_SIZE
      && s[..8] == ToLittleEndian(c.target, 8) && s[8..16] == ToLittleEndian(c.timestamp, 8)
      && s[16..31] == c.account && s[31..63] == c.key && s[63..] == c.signature
  {
    hide ToLittleEndian;
  }

  lemma PartsOfBytes(c: Challenge)
    requires c.Valid()
    ensures |Bytes(c)| == ENCODED_SIZE && Parts(Bytes(c)) == c
  {
    EightBytes();
    FromTo(c.target, 8);
    FromTo(c.timestamp, 8);
    hide Power, ToLittleEndian, FromLittleEndian, Bytes;
    FieldsOf(c);
  }

  lemma BytesOfParts(s: seq<byte>)
    requires |s| == ENCODED_SIZE
    ensures Bytes(Parts(s)) == s && Parts(s).Valid()
  {
    EightBytes();
    ToFrom(s[..8]);
    ToFrom(s[8..16]);
    hide Power, ToLittleEndian, FromLittleEndian;
    assert s[..8] + s[8..16] + s[16..31] + s[31..63] + s[63..] == s;
  }

  lemma {:induction false} LittleEndianAt(x: nat, n: nat, i: nat)
    requires i < n
    ensures ToLittleEndian(x, n)[i] == x / Power(256, i) % 256
    decreases i
  {
    if i > 0 {
      LittleEndianAt(x / 256, n - 1, i - 1);
      DivideTwice(x, Power(256, i - 1));
    }
  }

  lemma DivideTwice(x: nat, p: nat)
    requires p > 0
    ensures x / 256 / p == x / (256 * p)
  {
    var q, r := x / 256, x / 256 / p;
    assert x == 256 * q + x % 256 && q == p * r + q % p;
    assert 256 * (p * r) == 256 * p * r;
    assert 256 * p * r <= x < 256 * p * r + 256 * p;
    Quotient(x, 256 * p, r);
  }

  lemma Quotient(x: nat, d: nat, q: nat)
    requires d > 0 && d * q <= x < d * q + d
    ensures x / d == q
  {
    var r := x / d;
    assert d * r <= x < d * r + d;
    OneFactorMore(d, r, q);
    OneFactorMore(d, q, r);
  }

  lemma OneFactorMore(d: nat, r: nat, q: nat)
    ensures r < q ==> d * r + d <= d * q
  {
    if r < q {
      assert d * q == d * r + d + d * (q - r - 1);
    }
  }

  lemma {:induction false} HexAt(s: seq<byte>, i: nat)
    requires i < |s|
    ensures ToHex(s)[2 * i] == Digit(s[i] / 16) && ToHex(s)[2 * i + 1] == Digit(s[i] % 16)
    decreases i
  {
    hide Digit;
    if i > 0 {
      HexAt(s[1..], i - 1);
    }
  }

  /** The bytes of a challenge: target and timestamp from the low byte up, then account, key and
      signature. */
  function ByteOf(c: Challenge, i: nat): byte
    requires c.Valid() && i < ENCODED_SIZE
  {
    if i < 8 then c.target / Power(256, i) % 256
    else if i < 16 then c.timestamp / Power(256, i - 8) % 256
    else if i < 31 then c.account[i - 16]
    else if i < 63 then c.key[i - 31]
    else c.signature[i - 63]
  }

  /** Where each byte stands in the encoding, high digit first. */
  lemma EncodingAt(c: Challenge, i: nat)
    requires c.Valid() && i < ENCODED_SIZE
    ensures |Encode(c)| == 192 && Encode(c)[0] == '0' && Encode(c)[1] == 'x'
    ensures Encode(c)[2 + 2 * i] == DIGITS[ByteOf(c, i) / 16]
    ensures Encode(c)[3 + 2 * i] == DIGITS[ByteOf(c, i) % 16]
  {
    PartsOfBytes(c);
    HexAt(Bytes(c), i);
    if i < 8 {
      LittleEndianAt(c.target, 8, i);
    } else if i < 16 {
      LittleEndianAt(c.timestamp, 8, i - 8);
    }
    hide ToHex, ToLittleEndian, Power, Parts;
    assert Bytes(c)[i] == ByteOf(c, i);
    assert Encode(c)[2 + 2 * i] == ToHex(Bytes(c))[2 * i];
    assert Encode(c)[3 + 2 * i] == ToHex(Bytes(c))[2 * i + 1];
  }

  /** An encoding always has the same length, and decoding it under the secret it was signed with
      gives the challenge back. */
  lemma RoundTrip(scheme: Scheme, secret: seq<byte>, target: nat, timestamp: nat,
                  account: seq<byte>, key: seq<byte>)
    requires scheme.Valid() && target < U64 && timestamp < U64
    requires |account| == 15 && |key| == 32 && scheme.isAccount(account)
    ensures var c := NewChallenge(scheme, secret, target, timestamp, account, key);
      |Encode(c)| == 192 && Decode(scheme, secret, Encode(c)) == Some(Ok(c))
  {
    var c := NewChallenge(scheme, secret, target, timestamp, account, key);
    PartsOfBytes(c);
    HexRoundTrip(Bytes(c));
    hide ToHex, FromHex, Bytes, Parts;
    assert Encode(c)[..2] == "0x" && Encode(c)[2..] == ToHex(Bytes(c));
  }

  /** Different challenges have different encodings. */
  lemma EncodeIsInjective(c: Challenge, c': Challenge)
    requires c.Valid() && c'.Valid() && Encode(c) == Encode(c')
    ensures c == c'
  {
    PartsOfBytes(c);
    PartsOfBytes(c');
    HexRoundTrip(Bytes(c));
    HexRoundTrip(Bytes(c'));
    hide ToHex, FromHex, Bytes, Parts;
    assert Encode(c)[2..] == ToHex(Bytes(c)) && Encode(c')[2..] == ToHex(Bytes(c'));
  }

  /** The text is the encoding of the challenge, but for the case of its digits. */
  predicate Spells(text: string, c: Challenge) {
    && |text| == |Encode(c)|
    && forall i :: 0 <= i < |text| ==> text[i] == Encode(c)[i] ||
                                       (i >= 2 && SameDigit(text[i], Encode(c)[i]))
  }

  lemma SpellsIs(text: string, c: Challenge)
    requires c.Valid()
    ensures Spells(text, c) <==>
      && |text| == 192 && text[..2] == "0x"
      && FromHex(text[2..]).Some? && "0x" + Lower(text[2..]) == Encode(c)
  {
    PartsOfBytes(c);
    var hex := ToHex(Bytes(c));
    HexIsLower(Bytes(c));
    assert Encode(c) == "0x" + hex && |hex| == 190;
    if |text| == 192 {
      LowerAt(text[2..]);
      FromHexExactly(text[2..]);
      hide ToHex, Bytes, Lower, FromHex;
      var low := "0x" + Lower(text[2..]);
      assert forall i :: 2 <= i < 192 ==> text[i] == text[2..][i - 2];
      assert forall i :: 2 <= i < 192 ==> Encode(c)[i] == hex[i - 2];
      assert forall i :: 2 <= i < 192 ==> low[i] == Lower(text[2..])[i - 2];
      SpelledBy(text[2..], hex, Lower(text[2..]));
    }
  }

  lemma SpelledBy(text: string, hex: string, lower: string)
    requires |text| == |hex| == |lower|
    requires OnlyDigits(hex)
    requires forall i :: 0 <= i < |hex| ==> !('A' <= hex[i] <= 'F')
    requires forall i :: 0 <= i < |text| ==>
      SameDigit(text[i], lower[i]) && !('A' <= lower[i] <= 'F')
    ensures lower == hex <==> forall i :: 0 <= i < |text| ==> SameDigit(text[i], hex[i])
    ensures lower == hex ==> OnlyDigits(text)
  {
    if lower == hex {
      forall i | 0 <= i < |text| ensures IsHexDigit(text[i]) {
        assert SameDigit(text[i], hex[i]) && IsHexDigit(hex[i]);
      }
    }
  }

  /** A text decodes to a challenge exactly when, but for the case of its digits, it is the encoding
      of that challenge, which is signed under the secret and names a well-formed account. */
  lemma DecodeIsExact(scheme: Scheme, secret: seq<byte>, text: string, c: Challenge)
    requires scheme.Valid()
    ensures Decode(scheme, secret, text) == Some(Ok(c)) <==>
      && Spells(text, c) && c.Valid() && scheme.isAccount(c.account)
      && c.signature == scheme.sign(secret, c.target, c.timestamp, c.account, c.key)
  {
    if c.Valid() {
      SpellsIs(text, c);
    }
    hide Spells;
    if |text| == 192 && text[..2] == "0x" && FromHex(text[2..]).Some? {
      HexIsCanonical(text[2..]);
      var s := FromHex(text[2..]).value;
      BytesOfParts(s);
      hide ToHex, FromHex, Parts, Bytes, Lower;
      if c.Valid() && "0x" + Lower(text[2..]) == Encode(c) {
        PartsOfBytes(c);
        HexRoundTrip(Bytes(c));
        HexRoundTrip(s);
        assert ("0x" + Lower(text[2..]))[2..] == ToHex(s);
        assert Encode(c)[2..] == ToHex(Bytes(c));
      }
    }
  }

  /** Decoding rejects exactly malformed text as such, and panics exactly on well-formed text with
      a malformed account id. */
  lemma DecodePanics(scheme: Scheme, secret: seq<byte>, text: string)
    ensures Decode(scheme, secret, text) == Some(Err(MissingPowParameters)) <==>
            !(|text| == 192 && text[..2] == "0x" && OnlyDigits(text[2..]))
    ensures Decode(scheme, secret, text).None? <==>
      && |text| == 192 && text[..2] == "0x" && OnlyDigits(text[2..])
      && FromHex(text[2..]).Some? && !scheme.isAccount(FromHex(text[2..]).value[16..31])
  {
    if |text| == 192 {
      FromHexExactly(text[2..]);
    }
  }

  /** For instance on the text of any challenge whose account id is malformed, however it is
      signed. */
  lemma MalformedAccountPanics(scheme: Scheme, secret: seq<byte>, c: Challenge)
    requires c.Valid() && !scheme.isAccount(c.account)
    ensures Decode(scheme, secret, Encode(c)) == None
  {
    PartsOfBytes(c);
    HexRoundTrip(Bytes(c));
    hide ToHex, FromHex, Bytes, Parts;
    assert Encode(c)[..2] == "0x" && Encode(c)[2..] == ToHex(Bytes(c));
  }
}
