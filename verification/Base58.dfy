/** Base58 with the Bitcoin alphabet, over the in-place big integers. */
module Base58 {
  import opened Words
  import opened Options
  import opened Arith
  import opened Digits
  import opened BigInt

  /** The alphabet, cut where a look-alike character (0, I, O, l) is left out. */
  const ALPHABET: string := "123456789" + "ABCDEFGH" + "JKLMN" + "PQRSTUVWXYZ" + "abcdefghijk" + "mnopqrstuvwxyz"

  const BIGINT_SIZE: nat := 200

  /** The decoding table: the digit of a character, or -1. */
  function DigitOf(c: char): (d: int)
    ensures -1 <= d < 58
  {
    if '1' <= c <= '9' then c as int - '1' as int
    else if 'A' <= c <= 'H' then c as int - 'A' as int + 9
    else if 'J' <= c <= 'N' then c as int - 'J' as int + 17
    else if 'P' <= c <= 'Z' then c as int - 'P' as int + 22
    else if 'a' <= c <= 'k' then c as int - 'a' as int + 33
    else if 'm' <= c <= 'z' then c as int - 'm' as int + 44
    else -1
  }

  /** The alphabet character of a digit. */
  function CharOf(d: nat): char
    requires d < 58
  {
    if d < 9 then ('1' as int + d) as char
    else if d < 17 then ('A' as int + d - 9) as char
    else if d < 22 then ('J' as int + d - 17) as char
    else if d < 33 then ('P' as int + d - 22) as char
    else if d < 44 then ('a' as int + d - 33) as char
    else ('m' as int + d - 44) as char
  }

  lemma AlphabetTable(d: nat)
    requires d < 58
    ensures |ALPHABET| == 58 && ALPHABET[d] == CharOf(d)
  {
    if d < 9 {
      assert ALPHABET[d] == "123456789"[d];
    } else if d < 17 {
      assert ALPHABET[d] == "ABCDEFGH"[d - 9];
    } else if d < 22 {
      assert ALPHABET[d] == "JKLMN"[d - 17];
    } else if d < 33 {
      assert ALPHABET[d] == "PQRSTUVWXYZ"[d - 22];
    } else if d < 44 {
      assert ALPHABET[d] == "abcdefghijk"[d - 33];
    } else {
      assert ALPHABET[d] == "mnopqrstuvwxyz"[d - 44];
    }
  }

  /** The alphabet string and the decoding table are inverse to each other. */
  lemma AlphabetInverse(d: nat, c: char)
    requires d < 58
    ensures |ALPHABET| == 58 && ALPHABET[d] == CharOf(d)
    ensures DigitOf(ALPHABET[d]) == d
    ensures DigitOf(c) == d ==> ALPHABET[d] == c
  {
    AlphabetTable(d);
    CharInverse(d, c);
  }

  lemma CharInverse(d: nat, c: char)
    requires d < 58
    ensures DigitOf(CharOf(d)) == d
    ensures DigitOf(c) == d ==> CharOf(d) == c
  {
  }

  function Chars(ds: seq<nat>): (s: string)
    requires Ok(ds, 58)
    ensures |s| == |ds|
  {
    seq(|ds|, i requires 0 <= i < |ds| => CharOf(ds[i]))
  }

  predicate ValidString(s: string) {
    forall i :: 0 <= i < |s| ==> DigitOf(s[i]) >= 0
  }

  function DigitsIn(s: string): (ds: seq<nat>)
    requires ValidString(s)
    ensures |ds| == |s| && Ok(ds, 58)
  {
    seq(|s|, i requires 0 <= i < |s| => DigitOf(s[i]))
  }

  lemma CharsInverse(ds: seq<nat>)
    requires Ok(ds, 58)
    ensures ValidString(Chars(ds)) && DigitsIn(Chars(ds)) == ds
  {
    forall i | 0 <= i < |ds| ensures DigitOf(Chars(ds)[i]) == ds[i] { CharInverse(ds[i], '1'); }
  }

  lemma DigitsInverse(s: string)
    requires ValidString(s)
    ensures Chars(DigitsIn(s)) == s
  {
    forall i | 0 <= i < |s| ensures CharOf(DigitOf(s[i])) == s[i] { CharInverse(DigitOf(s[i]), s[i]); }
  }

  // ---------------------------------------------------------------------------
  // What is computed
  // ---------------------------------------------------------------------------

  function Encoded(x: seq<Byte>): string {
    Chars(Convert(x, 256, 58))
  }

  function Bytes(ds: seq<nat>): (b: seq<Byte>)
    requires Ok(ds, 256)
    ensures b == ds
  {
    ds
  }

  function Decoded(s: string): (r: Option<seq<Byte>>) {
    if |s| > BIGINT_SIZE || !ValidString(s) then None else Some(Bytes(Convert(DigitsIn(s), 58, 256)))
  }

  /** The documented maximum length of an encoding. */
  function EncodedLength(n: nat): nat {
    n * 138 / 100 + 1
  }

  // ---------------------------------------------------------------------------
  // The length bound
  // ---------------------------------------------------------------------------

  lemma Pow256Under58()
    ensures Pow(256, 8) <= Pow(58, 11)
  {
    assert Pow(256, 2) == 65536;
    PowAdd(256, 2, 2);
    PowAdd(256, 4, 4);
    assert Pow(58, 3) == 195112;
    PowAdd(58, 3, 3);
    PowAdd(58, 6, 3);
    assert Pow(58, 2) == 3364;
    PowAdd(58, 9, 2);
  }

  lemma {:induction false} PowStrict(a: nat, b: nat, e: nat)
    requires a < b && e > 0
    ensures Pow(a, e) < Pow(b, e)
  {
    if e == 1 {
      assert Pow(a, 1) == a * Pow(a, 0) && Pow(b, 1) == b * Pow(b, 0);
    } else {
      PowStrict(a, b, e - 1);
      MulMonotone(a, b - 1, Pow(a, e - 1), Pow(b, e - 1));
      assert b * Pow(b, e - 1) == (b - 1) * Pow(b, e - 1) + Pow(b, e - 1);
    }
  }

  /** m bytes fit in m * 138 / 100 + 1 base-58 digits. */
  lemma BytesFitDigits(m: nat)
    ensures Pow(256, m) <= Pow(58, EncodedLength(m))
  {
    var k := EncodedLength(m);
    if Pow(58, k) < Pow(256, m) {
      PowStrict(Pow(58, k), Pow(256, m), 8);
      PowMul(58, k, 8);
      PowMul(256, m, 8);
      PowMul(256, 8, m);
      assert m * 8 == 8 * m;
      Pow256Under58();
      PowBaseMonotone(Pow(256, 8), Pow(58, 11), m);
      PowMul(58, 11, m);
      PowMonotone(58, 11 * m, k * 8);
    }
  }

  lemma {:induction false} HornerBound(ds: seq<nat>, base: nat)
    requires Ok(ds, base)
    ensures Horner(ds, base) < Pow(base, |ds|)
  {
    HornerIsValue(ds, base);
    ValueBound(Reverse(ds), base);
  }

  /** The encoding of n bytes has at most n * 138 / 100 + 1 characters. */
  lemma EncodedLengthBound(x: seq<Byte>)
    ensures |Encoded(x)| <= |x| * 138 / 100 + 1
  {
    var k := LeadingZeros(x);
    var core := x[k..];
    assert x == Zeros(k) + core;
    HornerZeros(k, core, 256);
    HornerBound(core, 256);
    BytesFitDigits(|core|);
    DigitCount(Horner(x, 256), 58, EncodedLength(|core|));
    assert k + EncodedLength(|core|) <= EncodedLength(k + |core|);
  }

  // ---------------------------------------------------------------------------
  // Round trips
  // ---------------------------------------------------------------------------

  /** Every byte string of up to 100 bytes decodes from its encoding. */
  lemma DecodeOfEncode(x: seq<Byte>)
    requires |x| <= 100
    ensures Decoded(Encoded(x)) == Some(x)
  {
    EncodedLengthBound(x);
    CharsInverse(Convert(x, 256, 58));
    ConvertTwice(x, 256, 58);
  }

  /** Every string that decodes is the encoding of what it decodes to. */
  lemma EncodeOfDecode(s: string)
    requires Decoded(s).Some?
    ensures Encoded(Decoded(s).value) == s
  {
    ConvertTwice(DigitsIn(s), 58, 256);
    DigitsInverse(s);
  }

  lemma DigitIffInAlphabet(c: char)
    ensures DigitOf(c) >= 0 <==> c in ALPHABET
  {
    if DigitOf(c) >= 0 { AlphabetInverse(DigitOf(c), c); }
    AlphabetTable(0);
    if c in ALPHABET {
      var d :| 0 <= d < |ALPHABET| && ALPHABET[d] == c;
      AlphabetInverse(d, c);
    }
  }

  /** Exactly the strings of up to 200 characters of the alphabet decode. */
  lemma DecodesIff(s: string)
    ensures Decoded(s).Some? <==> |s| <= 200 && forall i :: 0 <= i < |s| ==> s[i] in ALPHABET
  {
    forall i | 0 <= i < |s|
      ensures DigitOf(s[i]) >= 0 <==> s[i] in ALPHABET
    {
      DigitIffInAlphabet(s[i]);
    }
  }

  /** Digits that do not start with zero are the encoding of the bytes with the same value. */
  lemma EncodingOf(x: seq<Byte>, ds: seq<nat>)
    requires Ok(ds, 58) && ds != [] && ds[0] != 0 && x != [] && x[0] != 0 && Horner(x, 256) == Horner(ds, 58)
    ensures Encoded(x) == Chars(ds)
  {
    BigEndianOfHorner(ds, 58);
    assert Zeros(0) + ds == ds;
  }

  lemma HornerTwo(a: nat, b: nat, base: nat)
    ensures Horner([a], base) == a && Horner([a, b], base) == a * base + b
  {
    assert [a][..0] == [] && [a, b][..1] == [a];
  }

  /** 256 is 4 * 58 + 24: the higher byte and the higher digit come first. */
  lemma HigherFirst()
    ensures Encoded([1, 0]) == "5R" && Decoded("5R") == Some([1, 0])
  {
    HornerTwo(1, 0, 256);
    HornerTwo(4, 24, 58);
    EncodingOf([1, 0], [4, 24]);
    assert Chars([4, 24]) == "5R";
    DecodeOfEncode([1, 0]);
  }

  lemma CharsCons(d: nat, ds: seq<nat>)
    requires d < 58 && Ok(ds, 58)
    ensures Ok([d] + ds, 58) && Chars([d] + ds) == [CharOf(d)] + Chars(ds)
  {
  }

  /** A leading zero byte becomes a '1'. */
  lemma ZeroBecomesOne(x: seq<Byte>)
    ensures Encoded([0] + x) == "1" + Encoded(x)
  {
    ConvertZero(x, 256, 58);
    CharsCons(0, Convert(x, 256, 58));
  }

  // ---------------------------------------------------------------------------
  // The loops
  // ---------------------------------------------------------------------------

  method CountLeadingZeros(input: seq<Byte>) returns (k: nat)
    ensures k == LeadingZeros(input)
  {
    k := 0;
    while k < |input| && input[k] == 0
      invariant k <= |input| && LeadingZeros(input) == k + LeadingZeros(input[k..])
    {
      assert input[k..][1..] == input[k + 1..];
      k := k + 1;
    }
  }

  method CountLeadingOnes(input: string) returns (k: nat)
    ensures k <= |input| && forall i :: 0 <= i < k ==> input[i] == '1'
    ensures k < |input| ==> input[k] != '1'
  {
    k := 0;
    while k < |input| && input[k] == '1'
      invariant k <= |input| && forall i :: 0 <= i < k ==> input[i] == '1'
    {
      k := k + 1;
    }
  }

  /** One round of a conversion loop: multiply by the base, add a digit. */
  method Shift(buf: array<Byte>, len: nat, base: nat, digit: nat, ghost n: nat) returns (newLen: nat)
    requires buf.Length == BIGINT_SIZE && len <= buf.Length && 0 < base <= 256 && digit < base
    requires Trimmed(buf[..len]) && Num(buf[..len]) == n && n * base + digit < Pow(256, BIGINT_SIZE)
    modifies buf
    ensures newLen <= buf.Length && Trimmed(buf[..newLen]) && Num(buf[..newLen]) == n * base + digit
  {
    newLen := Multiply(buf, len, base);
    newLen := AddSmall(buf, newLen, digit);
  }

  lemma HornerRoom(ds: seq<nat>, base: nat, i: nat)
    requires Ok(ds, base) && 0 < base <= 256 && i < |ds| <= BIGINT_SIZE
    ensures Horner(ds[..i + 1], base) == Horner(ds[..i], base) * base + ds[i]
    ensures Horner(ds[..i], base) * base + ds[i] < Pow(256, BIGINT_SIZE)
  {
    assert ds[..i + 1][..i] == ds[..i];
    HornerBound(ds[..i + 1], base);
    PowBaseMonotone(base, 256, i + 1);
    PowMonotone(256, i + 1, BIGINT_SIZE);
  }

  method LoadBytes(input: seq<Byte>, buf: array<Byte>) returns (len: nat)
    requires buf.Length == BIGINT_SIZE && |input| <= BIGINT_SIZE
    modifies buf
    ensures len <= buf.Length && Trimmed(buf[..len]) && Num(buf[..len]) == Horner(input, 256)
  {
    len := 0;
    var i := 0;
    while i < |input|
      invariant 0 <= i <= |input| && len <= buf.Length
      invariant Trimmed(buf[..len]) && Num(buf[..len]) == Horner(input[..i], 256)
    {
      HornerRoom(input, 256, i);
      len := Shift(buf, len, 256, input[i], Horner(input[..i], 256));
      i := i + 1;
    }
    assert input[..i] == input;
  }

  /** Divides down to zero, writing the digits least significant first. */
  method ExtractDigits(buf: array<Byte>, lenIn: nat, base: nat, digits: array<Byte>) returns (count: nat)
    requires lenIn <= buf.Length && Trimmed(buf[..lenIn]) && 2 <= base <= 256 && buf != digits
    requires |DigitsOf(Num(buf[..lenIn]), base)| <= digits.Length
    modifies buf, digits
    ensures count <= digits.Length && digits[..count] == DigitsOf(old(Num(buf[..lenIn])), base)
  {
    var len := lenIn;
    ghost var left := DigitsOf(Num(buf[..lenIn]), base);
    ghost var all := left;
    count := 0;
    while len > 0
      invariant 0 <= len <= buf.Length && Trimmed(buf[..len]) && count <= digits.Length
      invariant left == DigitsOf(Num(buf[..len]), base) && digits[..count] + left == all
      decreases |left|
    {
      var d: Byte;
      len, d := NextDigit(buf, len, base, left);
      Store(digits, count, d, left);
      count, left := count + 1, left[1..];
    }
  }

  /** Divides once; the remainder is the next of the digits left. */
  method NextDigit(buf: array<Byte>, lenIn: nat, base: nat, ghost left: seq<nat>) returns (len: nat, d: Byte)
    requires 0 < lenIn <= buf.Length && Trimmed(buf[..lenIn]) && 2 <= base <= 256
    requires left == DigitsOf(Num(buf[..lenIn]), base)
    modifies buf
    ensures len <= lenIn && Trimmed(buf[..len])
    ensures left != [] && d == left[0] && left[1..] == DigitsOf(Num(buf[..len]), base)
  {
    PositiveWhenTrimmed(buf[..lenIn]);
    len, d := DivMod(buf, lenIn, base);
  }

  /** Writes the first of the digits left after those written. */
  method Store(digits: array<Byte>, count: nat, d: Byte, ghost left: seq<nat>)
    requires count < digits.Length && left != [] && d == left[0]
    modifies digits
    ensures digits[..count + 1] + left[1..] == old(digits[..count]) + left
  {
    digits[count] := d;
    assert digits[..count + 1] == old(digits[..count]) + [left[0]];
  }

  lemma PositiveWhenTrimmed(s: seq<Byte>)
    requires Trimmed(s) && s != []
    ensures Num(s) > 0
  {
    if Num(s) == 0 {
      DigitsOfValue(s, 256);
    }
  }

  predicate EncodeFails(input: seq<Byte>, room: nat) {
    if input == [] then room < 1 else |input| > BIGINT_SIZE / 2 || |Encoded(input)| > room
  }

  /** base58_encode: the number of characters written, or -1. */
  method Encode(input: seq<Byte>, output: array<char>) returns (written: int)
    modifies output
    ensures EncodeFails(input, output.Length) ==> written == -1 && output[..] == old(output[..])
    ensures !EncodeFails(input, output.Length) ==>
              written == |Encoded(input)| <= output.Length
              && output[..written] == Encoded(input) && output[written..] == old(output[written..])
  {
    if |input| == 0 {
      return if output.Length < 1 then -1 else 0;
    }
    if |input| > BIGINT_SIZE / 2 { return -1; }
    var zeros := CountLeadingZeros(input);
    EncodedLengthBound(input);
    var digits := Base58Digits(input);
    var total := zeros + |digits|;
    if output.Length < total { return -1; }
    WriteChars(zeros, digits, output);
    return total;
  }

  /** Loads the bytes as a big integer and divides it down to its base-58 digits. */
  method Base58Digits(input: seq<Byte>) returns (r: seq<Byte>)
    requires |input| <= BIGINT_SIZE && |DigitsOf(Horner(input, 256), 58)| <= BIGINT_SIZE
    ensures r == DigitsOf(Horner(input, 256), 58)
  {
    var buf := new Byte[BIGINT_SIZE](_ => 0);
    var len := LoadBytes(input, buf);
    var digits := new Byte[BIGINT_SIZE](_ => 0);
    var count := ExtractDigits(buf, len, 58, digits);
    return digits[..count];
  }

  /** A '1' for each leading zero byte. */
  method WriteOnes(zeros: nat, output: array<char>)
    requires zeros <= output.Length
    modifies output
    ensures forall k :: 0 <= k < zeros ==> output[k] == '1'
    ensures forall k :: zeros <= k < output.Length ==> output[k] == old(output[k])
  {
    var pos := 0;
    while pos < zeros
      invariant 0 <= pos <= zeros
      invariant forall k :: 0 <= k < pos ==> output[k] == '1'
      invariant forall k :: pos <= k < output.Length ==> output[k] == old(output[k])
    {
      output[pos] := '1';
      pos := pos + 1;
    }
  }

  method WriteChars(zeros: nat, digits: seq<Byte>, output: array<char>)
    requires Ok(digits, 58) && zeros + |digits| <= output.Length
    modifies output
    ensures output[..zeros + |digits|] == Chars(Zeros(zeros) + Reverse(digits))
    ensures output[zeros + |digits|..] == old(output[zeros + |digits|..])
  {
    ghost var ds := Zeros(zeros) + Reverse(digits);
    WriteOnes(zeros, output);
    var pos, i := zeros, |digits|;
    while i > 0
      invariant 0 <= i <= |digits| && pos == zeros + |digits| - i
      invariant forall k :: 0 <= k < pos ==> output[k] == CharOf(ds[k])
      invariant forall k :: pos <= k < output.Length ==> output[k] == old(output[k])
    {
      output[pos] := CharOf(digits[i - 1]);
      assert ds[pos] == digits[i - 1];
      pos := pos + 1;
      i := i - 1;
    }
  }

  // ---------------------------------------------------------------------------
  // Decoding
  // ---------------------------------------------------------------------------

  function StringValue(s: string): nat
    requires ValidString(s)
  {
    Horner(DigitsIn(s), 58)
  }

  /** The digit loop of decode; -1 as soon as a character is not in the alphabet. */
  method LoadString(input: string, start: nat, buf: array<Byte>) returns (len: int)
    requires buf.Length == BIGINT_SIZE && start <= |input| <= BIGINT_SIZE
    requires forall i :: 0 <= i < start ==> input[i] == '1'
    modifies buf
    ensures len >= 0 <==> ValidString(input)
    ensures len >= 0 ==> len <= buf.Length && Trimmed(buf[..len]) && Num(buf[..len]) == StringValue(input)
  {
    len := 0;
    var i := start;
    OnesWorthNothing(input[..start]);
    while i < |input|
      invariant start <= i <= |input| && 0 <= len <= buf.Length && ValidString(input[..i])
      invariant Trimmed(buf[..len]) && Num(buf[..len]) == StringValue(input[..i])
    {
      var val := DigitOf(input[i]);
      if val < 0 {
        assert !ValidString(input);
        return -1;
      }
      StringRoom(input, i);
      ghost var n := StringValue(input[..i]);
      len := Shift(buf, len, 58, val, n);
      i := i + 1;
    }
    assert input[..i] == input;
  }

  lemma OnesWorthNothing(s: string)
    requires forall i :: 0 <= i < |s| ==> s[i] == '1'
    ensures ValidString(s) && StringValue(s) == 0
  {
    assert DigitsIn(s) == Zeros(|s|) + [];
    HornerZeros(|s|, [], 58);
  }

  lemma StringRoom(s: string, i: nat)
    requires i < |s| <= BIGINT_SIZE && ValidString(s[..i]) && DigitOf(s[i]) >= 0
    ensures ValidString(s[..i + 1])
    ensures StringValue(s[..i + 1]) == StringValue(s[..i]) * 58 + DigitOf(s[i])
    ensures StringValue(s[..i]) * 58 + DigitOf(s[i]) < Pow(256, BIGINT_SIZE)
  {
    assert ValidString(s[..i + 1]);
    var ds := DigitsIn(s[..i + 1]);
    assert ds[..i] == DigitsIn(s[..i]) && ds[..i + 1] == ds;
    HornerRoom(ds, 58, i);
  }

  /** bigint_reverse on the first len bytes. */
  method ReverseInPlace(data: array<Byte>, len: nat)
    requires 0 < len <= data.Length
    modifies data
    ensures data[..len] == Reverse(old(data[..len])) && data[len..] == old(data[len..])
  {
    var i, j := 0, len - 1;
    while i < j
      invariant 0 <= i && j == len - 1 - i && i <= j + 1
      invariant forall k :: 0 <= k < i ==> data[k] == old(data[len - 1 - k]) && data[len - 1 - k] == old(data[k])
      invariant forall k :: i <= k <= j ==> data[k] == old(data[k])
      invariant forall k :: len <= k < data.Length ==> data[k] == old(data[k])
    {
      data[i], data[j] := data[j], data[i];
      i, j := i + 1, j - 1;
    }
    ghost var was := old(data[..len]);
    forall k | 0 <= k < len ensures data[..len][k] == Reverse(was)[k] {
      if k >= i && k > j { assert data[len - 1 - (len - 1 - k)] == old(data[len - 1 - k]); }
    }
  }

  predicate DecodeFails(input: string, room: nat) {
    Decoded(input).None? || |Decoded(input).value| > room
  }

  /** base58_decode: 0 and the number of bytes written, or -1. */
  method Decode(input: string, output: array<Byte>) returns (status: int, written: nat)
    modifies output
    ensures DecodeFails(input, output.Length) ==> status == -1 && written == 0 && output[..] == old(output[..])
    ensures !DecodeFails(input, output.Length) ==>
              status == 0 && written == |Decoded(input).value| <= output.Length
              && output[..written] == Decoded(input).value && output[written..] == old(output[written..])
  {
    if |input| == 0 { return 0, 0; }
    if |input| > BIGINT_SIZE { return -1, 0; }
    var ones, good, bytes := DecodeParts(input);
    if !good { return -1, 0; }
    var total := ones + |bytes|;
    if output.Length < total { return -1, 0; }
    WriteBytes(ones, bytes, output);
    return 0, total;
  }

  /** The leading ones and the bytes of the number behind them, unless a character is not in the alphabet. */
  method DecodeParts(input: string) returns (ones: nat, good: bool, bytes: seq<Byte>)
    requires |input| <= BIGINT_SIZE
    ensures good == ValidString(input)
    ensures good ==> Decoded(input) == Some(Zeros(ones) + bytes)
  {
    ones := CountLeadingOnes(input);
    var buf := new Byte[BIGINT_SIZE](_ => 0);
    var len := LoadString(input, ones, buf);
    if len < 0 { return ones, false, []; }
    OnesAreZeros(input, ones);
    DigitsFitBuffer(DigitsIn(input));
    bytes := ExtractBytes(buf, len);
    return ones, true, bytes;
  }

  /** Divides by 256 down to zero and reverses the bytes to most significant first. */
  method ExtractBytes(buf: array<Byte>, len: nat) returns (r: seq<Byte>)
    requires len <= buf.Length && Trimmed(buf[..len]) && |DigitsOf(Num(buf[..len]), 256)| <= BIGINT_SIZE
    modifies buf
    ensures r == BigEndian(old(Num(buf[..len])), 256)
  {
    var bytes := new Byte[BIGINT_SIZE](_ => 0);
    var count := ExtractDigits(buf, len, 256, bytes);
    if count > 0 {
      ReverseInPlace(bytes, count);
    }
    return bytes[..count];
  }

  lemma OnesAreZeros(s: string, k: nat)
    requires ValidString(s) && k <= |s| && forall i :: 0 <= i < k ==> s[i] == '1'
    requires k < |s| ==> s[k] != '1'
    ensures LeadingZeros(DigitsIn(s)) == k
  {
    assert DigitsIn(s) == Zeros(k) + DigitsIn(s)[k..];
    if k < |s| { assert DigitsIn(s)[k] != 0 by { CharInverse(0, s[k]); } }
    LeadingZerosUnique(k, DigitsIn(s)[k..]);
  }

  lemma DigitsFitBuffer(ds: seq<nat>)
    requires Ok(ds, 58) && |ds| <= BIGINT_SIZE
    ensures |DigitsOf(Horner(ds, 58), 256)| <= BIGINT_SIZE
  {
    HornerBound(ds, 58);
    PowBaseMonotone(58, 256, |ds|);
    DigitCount(Horner(ds, 58), 256, |ds|);
  }

  method WriteBytes(zeros: nat, bytes: seq<Byte>, output: array<Byte>)
    requires zeros + |bytes| <= output.Length
    modifies output
    ensures output[..zeros + |bytes|] == Zeros(zeros) + bytes
    ensures output[zeros + |bytes|..] == old(output[zeros + |bytes|..])
  {
    ghost var all := Zeros(zeros) + bytes;
    var pos := 0;
    while pos < zeros
      invariant 0 <= pos <= zeros
      invariant forall k :: 0 <= k < pos ==> output[k] == all[k]
      invariant forall k :: pos <= k < output.Length ==> output[k] == old(output[k])
    {
      output[pos] := 0;
      pos := pos + 1;
    }
    while pos < zeros + |bytes|
      invariant zeros <= pos <= zeros + |bytes|
      invariant forall k :: 0 <= k < pos ==> output[k] == all[k]
      invariant forall k :: pos <= k < output.Length ==> output[k] == old(output[k])
    {
      output[pos] := bytes[pos - zeros];
      pos := pos + 1;
    }
  }
}
