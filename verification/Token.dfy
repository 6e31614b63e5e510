/** The connection token, after `connection_token` and `encode_number` of src/data_sync/protocol.rs. */
module Token {
  import opened Arithmetic
  import opened Decimal
  import opened Wrappers

  /** The protocol's alphabet, in digit order. */
  function Letter(d: Digit): char {
    if d == 0 then 'Q' else if d == 1 then 'B' else if d == 2 then 'W' else if d == 3 then 'S' else if d == 4 then 'P'
    else if d == 5 then 'H' else if d == 6 then 'D' else if d == 7 then 'X' else if d == 8 then 'Z' else 'U'
  }

  ghost function Pow10(n: nat): (p: nat)
    ensures p > 0
  {
    if n == 0 then 1 else 10 * Pow10(n - 1)
  }

  // ---------------------------------------------------------------------------------------------------
  // Encoding

  /** `{number:0length$}`. */
  function Padded(number: nat, length: nat): (digits: seq<Digit>)
    ensures |digits| >= length
  {
    var digits := Digits(number);
    if |digits| < length then Zeros(length - |digits|) + digits else digits
  }

  function Zeros(n: nat): (zeros: seq<Digit>)
    ensures |zeros| == n
  {
    seq(n, _ => 0)
  }

  /** Keeps the last `length` digits, each written with its letter of the alphabet. */
  function EncodeNumber(number: nat, length: nat): string {
    var padded := Padded(number, length);
    Mapped(padded[|padded| - length..])
  }

  function Mapped(digits: seq<Digit>): string {
    seq(|digits|, i requires 0 <= i < |digits| => Letter(digits[i]))
  }

  function TrimEnd(secret: string): (trimmed: string)
    ensures trimmed <= secret && (trimmed != [] ==> trimmed[|trimmed| - 1] != '=')
    ensures forall i :: |trimmed| <= i < |secret| ==> secret[i] == '='
  {
    if secret != [] && secret[|secret| - 1] == '=' then TrimEnd(secret[..|secret| - 1]) else secret
  }

  predicate IsAscii(value: string) { forall c <- value :: c < 128 as char }

  predicate CanFormToken(secret: string) { |TrimEnd(secret)| >= 3 && IsAscii(TrimEnd(secret)) }

  /** `start` is the random split point, `now` the clock in milliseconds. */
  function ConnectionToken(secret: string, start: nat, now: int): (token: Option<string>)
    requires CanFormToken(secret) ==> 2 <= start < |TrimEnd(secret)|
    ensures token.Some? <==> |TrimEnd(secret)| >= 3 && forall c <- TrimEnd(secret) :: c as int < 128
  {
    if !CanFormToken(secret) then None
    else
      var trimmed := TrimEnd(secret);
      var timestamp := if now < 0 then 0 else now;
      var timestampDigits := Digits(timestamp);
      Some(EncodeNumber(start, 3) + EncodeNumber(|timestampDigits|, 2) + trimmed[..start]
           + EncodeNumber(timestamp, |timestampDigits|) + trimmed[start..])
  }

  // ---------------------------------------------------------------------------------------------------
  // Decoding, as the protocol's reader does it

  function DigitOf(c: char): Option<nat> {
    if c == 'Q' then Some(0) else if c == 'B' then Some(1) else if c == 'W' then Some(2) else if c == 'S' then Some(3)
    else if c == 'P' then Some(4) else if c == 'H' then Some(5) else if c == 'D' then Some(6)
        else if c == 'X' then Some(7)
    else if c == 'Z' then Some(8) else if c == 'U' then Some(9) else None
  }

  function DecodeNumber(encoded: string): Option<nat> {
    if encoded == [] then Some(0)
    else Shift(DecodeNumber(encoded[..|encoded| - 1]), DigitOf(encoded[|encoded| - 1]))
  }

  function Shift(number: Option<nat>, digit: Option<nat>): Option<nat> {
    if number.Some? && digit.Some? then Some(number.value * 10 + digit.value) else None
  }

  datatype TokenParts = TokenParts(split: nat, timestamp: nat, secret: string)

  function DecodeToken(token: string): Option<TokenParts> {
    if |token| < 5 then None
    else
      match (DecodeNumber(token[..3]), DecodeNumber(token[3..5]))
      case (Some(split), Some(length)) =>
        if |token| < 5 + split + length then None
        else
          (match DecodeNumber(token[5 + split..5 + split + length])
          case Some(timestamp) => Some(TokenParts(split, timestamp, token[5..5 + split] + token[5 + split + length..]))
          case None => None)
      case _ => None
  }

  // ---------------------------------------------------------------------------------------------------
  // Round trips

  lemma LettersAreDistinct(d: Digit)
    ensures DigitOf(Letter(d)) == Some(d)
  {
  }

  lemma DecodeAppends(encoded: string, c: char)
    ensures DecodeNumber(encoded + [c]) == Shift(DecodeNumber(encoded), DigitOf(c))
  {
    assert (encoded + [c])[..|encoded|] == encoded;
  }

  lemma {:induction false} MappedDecodes(digits: seq<Digit>)
    ensures DecodeNumber(Mapped(digits)) == Some(ValueOf(digits))
  {
    if digits != [] {
      var n := |digits| - 1;
      MappedDecodes(digits[..n]);
      assert Mapped(digits) == Mapped(digits[..n]) + [Letter(digits[n])];
      DecodeAppends(Mapped(digits[..n]), Letter(digits[n]));
      LettersAreDistinct(digits[n]);
    }
  }

  lemma {:induction false} ValueSplits(a: seq<Digit>, b: seq<Digit>)
    ensures ValueOf(b) < Pow10(|b|)
    ensures ValueOf(a + b) == ValueOf(a) * Pow10(|b|) + ValueOf(b)
  {
    if b == [] {
      assert a + b == a;
    } else {
      var n := |b| - 1;
      ValueSplits(a, b[..n]);
      assert (a + b)[..|a + b| - 1] == a + b[..n];
      Shifted(ValueOf(a + b[..n]), ValueOf(a), Pow10(n), ValueOf(b[..n]), b[n]);
    }
  }

  lemma {:induction false} ZerosHaveNoValue(n: nat)
    ensures ValueOf(Zeros(n)) == 0
  {
    if n > 0 {
      ZerosHaveNoValue(n - 1);
      assert Zeros(n)[..n - 1] == Zeros(n - 1);
    }
  }

  lemma PaddedValue(number: nat, length: nat)
    ensures ValueOf(Padded(number, length)) == number
  {
    var digits := Digits(number);
    DigitsValue(number);
    if |digits| < length {
      ZerosHaveNoValue(length - |digits|);
      ValueSplits(Zeros(length - |digits|), digits);
    }
  }

  /** Decoding an encoded number gives it back modulo 10^length, in exactly `length` characters. */
  lemma NumberRoundTrip(number: nat, length: nat)
    ensures |EncodeNumber(number, length)| == length
    ensures DecodeNumber(EncodeNumber(number, length)) == Some(number % Pow10(length))
  {
    var padded := Padded(number, length);
    PaddedValue(number, length);
    var front, back := padded[..|padded| - length], padded[|padded| - length..];
    assert padded == front + back;
    TailResidue(front, back);
    MappedDecodes(back);
  }

  lemma TailResidue(front: seq<Digit>, back: seq<Digit>)
    ensures ValueOf(back) == ValueOf(front + back) % Pow10(|back|)
  {
    ValueSplits(front, back);
    Residue(ValueOf(front + back), ValueOf(front), Pow10(|back|), ValueOf(back));
  }

  lemma {:induction false} DigitsLength(n: nat, length: nat)
    requires length > 0 && n < Pow10(length)
    ensures |Digits(n)| <= length
  {
    if n >= 10 {
      DigitsLength(n / 10, length - 1);
    }
  }

  lemma {:induction false} DigitsReach(n: nat)
    ensures n < Pow10(|Digits(n)|)
  {
    if n >= 10 {
      DigitsReach(n / 10);
    }
  }

  /** A field gives its number back exactly when the number fits. */
  lemma FieldRoundTrip(number: nat, length: nat)
    ensures |EncodeNumber(number, length)| == length
    ensures DecodeNumber(EncodeNumber(number, length)).Some?
    ensures DecodeNumber(EncodeNumber(number, length)) == Some(number) <==> number < Pow10(length)
  {
    NumberRoundTrip(number, length);
    RemainderIsSelf(number, Pow10(length));
  }

  lemma RemainderIsSelf(n: nat, m: nat)
    requires m > 0
    ensures n % m == n <==> n < m
  {
    if n < m {
      Residue(n, 0, m, n);
    }
  }

  lemma TimestampLength(timestamp: nat)
    requires timestamp < 0x8000_0000_0000_0000
    ensures |Digits(timestamp)| < Pow10(2)
  {
    Powers();
    DigitsLength(timestamp, 19);
  }

  /** A reader recovers the split point, the timestamp and the trimmed secret exactly when the split point
      fits its three digits. */
  lemma TokenRoundTrip(secret: string, start: nat, now: int)
    requires CanFormToken(secret) && 2 <= start < |TrimEnd(secret)|
    requires now < 0x8000_0000_0000_0000
    ensures var token := ConnectionToken(secret, start, now).value;
            start < 1000 <==> DecodeToken(token) == Some(TokenParts(start, if now < 0 then 0 else now, TrimEnd(secret)))
  {
    var timestamp := if now < 0 then 0 else now;
    StampDecodes(timestamp);
    SplitDecodes(start);
    var digits := |Digits(timestamp)|;
    SplitSecretDecodes(EncodeNumber(start, 3), EncodeNumber(digits, 2), TrimEnd(secret), start,
                       EncodeNumber(timestamp, digits), timestamp);
  }

  lemma StampDecodes(timestamp: nat)
    requires timestamp < 0x8000_0000_0000_0000
    ensures var digits := |Digits(timestamp)|;
            && |EncodeNumber(digits, 2)| == 2 && DecodeNumber(EncodeNumber(digits, 2)) == Some(digits)
            && |EncodeNumber(timestamp, digits)| == digits
               && DecodeNumber(EncodeNumber(timestamp, digits)) == Some(timestamp)
  {
    var digits := |Digits(timestamp)|;
    TimestampLength(timestamp);
    DigitsReach(timestamp);
    FieldRoundTrip(digits, 2);
    FieldRoundTrip(timestamp, digits);
  }

  lemma SplitDecodes(start: nat)
    ensures |EncodeNumber(start, 3)| == 3
    ensures DecodeNumber(EncodeNumber(start, 3)) == Some(start) <==> start < 1000
  {
    FieldRoundTrip(start, 3);
    assert Pow10(3) == 1000 by { Powers(); }
  }

  lemma SplitSecretDecodes(split: string, length: string, trimmed: string, start: nat, stamp: string, timestamp: nat)
    requires |split| == 3 && |length| == 2 && start <= |trimmed|
    requires DecodeNumber(length) == Some(|stamp|) && DecodeNumber(stamp) == Some(timestamp)
    ensures var token := split + length + trimmed[..start] + stamp + trimmed[start..];
            DecodeNumber(split) == Some(start) <==> DecodeToken(token) == Some(TokenParts(start, timestamp, trimmed))
  {
    var prefix, suffix := trimmed[..start], trimmed[start..];
    assert prefix + suffix == trimmed && |prefix| == start;
    PartsDecode(split, length, prefix, stamp, suffix, timestamp);
  }

  lemma PartsDecode(split: string, length: string, prefix: string, stamp: string, suffix: string, timestamp: nat)
    requires |split| == 3 && |length| == 2
    requires DecodeNumber(length) == Some(|stamp|) && DecodeNumber(stamp) == Some(timestamp)
    ensures var token := split + length + prefix + stamp + suffix;
            DecodeNumber(split) == Some(|prefix|) <==>
                DecodeToken(token) == Some(TokenParts(|prefix|, timestamp, prefix + suffix))
  {
    Slices(split, length, prefix, stamp, suffix);
  }

  lemma Slices(a: string, b: string, c: string, d: string, e: string)
    requires |a| == 3 && |b| == 2
    ensures var token := a + b + c + d + e;
            && token[..3] == a && token[3..5] == b
            && token[5..5 + |c|] == c && token[5 + |c|..5 + |c| + |d|] == d && token[5 + |c| + |d|..] == e
  {
  }

  lemma Powers()
    ensures Pow10(2) == 100 && Pow10(3) == 1000 && Pow10(19) == 10_000_000_000_000_000_000
  {
    assert Pow10(6) == 1_000_000;
    assert Pow10(11) == 100_000_000_000;
    assert Pow10(16) == 10_000_000_000_000_000;
  }

  /** So every split of a secret of at most 1000 characters, without its padding, is recovered. */
  lemma OrdinarySecretsRoundTrip(secret: string, start: nat, now: int)
    requires CanFormToken(secret) && 2 <= start < |TrimEnd(secret)| <= 1000
    requires 0 <= now < 0x8000_0000_0000_0000
    ensures DecodeToken(ConnectionToken(secret, start, now).value) == Some(TokenParts(start, now, TrimEnd(secret)))
  {
    TokenRoundTrip(secret, start, now);
  }
}
