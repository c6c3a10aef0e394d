/** Node identifiers: a 32-byte hash of a public key and its Base58 form. */
module NodeId {
  import opened Words
  import opened Options
  import opened Digits
  import opened Base58

  const HASH_SIZE: nat := 32
  const STRING_SIZE: nat := 48

  type Hash = h: seq<Byte> | |h| == HASH_SIZE witness Zeroed(HASH_SIZE)

  function Zeroed(n: nat): (r: seq<Byte>)
    ensures |r| == n
  {
    seq(n, i => 0)
  }

  /** What a string parses to: the decoded bytes, filled up with zeros at the end. */
  function Parsed(s: string): Option<Hash> {
    if |s| >= STRING_SIZE || DecodeFails(s, HASH_SIZE) then None
    else
      var b := Decoded(s).value;
      Some(b + Zeroed(HASH_SIZE - |b|))
  }

  /** The string form of any hash fits the buffer and parses back to that hash. */
  lemma ParseOfGenerated(h: Hash)
    ensures |Encoded(h)| < STRING_SIZE - 1
    ensures Parsed(Encoded(h)) == Some(h)
  {
    EncodedLengthBound(h);
    DecodeOfEncode(h);
    assert h + Zeroed(0) == h;
  }

  /** Exactly the strings of up to 47 alphabet characters that decode to at most 32 bytes parse, those bytes first. */
  lemma ParsedSpelled(s: string, i: nat)
    ensures Parsed(s).Some? <==> |s| <= 47 && Decoded(s).Some? && |Decoded(s).value| <= 32
    ensures Parsed(s).Some? && i < 32 ==>
              Parsed(s).value[i] == if i < |Decoded(s).value| then Decoded(s).value[i] else 0
  {
  }

  /** The string "2" stands for a one followed by 31 zero bytes. */
  lemma ParsedOfTwo()
    ensures Parsed("2") == Some([1] + Zeroed(31))
  {
    assert [1][..0] == [];
    EncodingOf([1], [1]);
    assert Chars([1]) == "2";
    DecodeOfEncode([1]);
  }

  /** Different hashes have different string forms. */
  lemma GeneratedInjective(g: Hash, h: Hash)
    requires Encoded(g) == Encoded(h)
    ensures g == h
  {
    ParseOfGenerated(g);
    ParseOfGenerated(h);
  }

  /** Of the strings that parse, exactly those that decode to 32 bytes are the string form of their hash. */
  lemma CanonicalIff(s: string)
    requires Parsed(s).Some?
    ensures Encoded(Parsed(s).value) == s <==> |Decoded(s).value| == HASH_SIZE
  {
    var h := Parsed(s).value;
    DecodeOfEncode(h);
    EncodeOfDecode(s);
    if |Decoded(s).value| == HASH_SIZE {
      assert Decoded(s).value + Zeroed(0) == Decoded(s).value;
    }
  }

  /** Parsing is not injective: a short string and a longer one can stand for the same hash. */
  lemma ShortStringsCollide()
    ensures Parsed("1") == Parsed("11") && Parsed("1").Some?
  {
    AllOnes("1");
    AllOnes("11");
    assert Zeroed(1) + Zeroed(HASH_SIZE - 1) == Zeroed(2) + Zeroed(HASH_SIZE - 2);
  }

  lemma AllOnes(s: string)
    requires |s| <= HASH_SIZE && forall i :: 0 <= i < |s| ==> s[i] == '1'
    ensures Decoded(s) == Some(Zeroed(|s|))
  {
    OnesWorthNothing(s);
    LeadingZerosUnique(|s|, []);
    assert DigitsIn(s) == Zeros(|s|) + [];
    assert Convert(DigitsIn(s), 58, 256) == Zeroed(|s|);
  }

  class Id {
    var hash: Hash
    var str: string

    constructor ()
      ensures hash == Zeroed(HASH_SIZE) && str == ""
    {
      hash, str := Zeroed(HASH_SIZE), "";
    }

    /** Never fails once the hash is computed: every encoding fits. */
    method FromPublicKey(blake3: seq<Byte> -> Hash, key: seq<Byte>) returns (status: int)
      modifies this
      ensures status == 0 && hash == blake3(key) && str == Encoded(hash)
      ensures Parsed(str) == Some(hash)
    {
      hash := blake3(key);
      ParseOfGenerated(hash);
      var buffer := new char[STRING_SIZE - 1];
      var written := Encode(hash, buffer);
      str := buffer[..written];
      return 0;
    }

    /** Decodes into a buffer of 32 bytes that starts as the current hash. */
    method DecodeHash(s: string) returns (bytes: Option<seq<Byte>>)
      ensures bytes == if DecodeFails(s, HASH_SIZE) then None else Decoded(s)
    {
      var buffer := new Byte[HASH_SIZE](i requires 0 <= i < HASH_SIZE reads this => this.hash[i]);
      var ok, written := Decode(s, buffer);
      if ok != 0 { return None; }
      return Some(buffer[..written]);
    }

    /** On failure the string has been copied already; the hash is left alone unless decoding succeeds. */
    method FromString(s: string) returns (status: int)
      modifies this
      ensures status == if Parsed(s).Some? then 0 else -1
      ensures str == if |s| < STRING_SIZE then s else old(str)
      ensures hash == if Parsed(s).Some? then Parsed(s).value else old(hash)
    {
      if |s| >= STRING_SIZE { return -1; }
      str := s;
      var bytes := DecodeHash(s);
      if bytes.None? { return -1; }
      hash := bytes.value + Zeroed(HASH_SIZE - |bytes.value|);
      return 0;
    }
  }
}
