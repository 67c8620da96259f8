/**
  Byte-level conversions the event decoders and the order conversion rely on:
  big-endian words (Solidity Contract ABI encoding), 20-byte addresses taken from
  32-byte words, hexadecimal text of byte strings, and decimal text of integers.
*/
module Abi {
  import opened Wrappers

  newtype uint8 = x: int | 0 <= x < 256
  type Bytes = seq<uint8>

  const WordLength: nat := 32
  const AddressLength: nat := 20

  /** The all-zero address. */
  const ZeroAddress: Bytes := seq(AddressLength, _ => 0)

  /** The unsigned value of a big-endian byte string (`big.Int.SetBytes`). */
  function BigEndian(bs: Bytes): (n: nat)
    ensures n < Pow256(|bs|)
  {
    if bs == [] then 0
    else
      var high := BigEndian(bs[..|bs| - 1]);
      assert high * 256 + 256 <= Pow256(|bs| - 1) * 256;
      high * 256 + bs[|bs| - 1] as nat
  }

  const TwoTo64: nat := 0x1_0000_0000_0000_0000

  function Pow256(k: nat): nat
  {
    if k == 0 then 1 else 256 * Pow256(k - 1)
  }

  lemma {:induction false} Pow256Monotone(j: nat, k: nat)
    requires j <= k
    ensures Pow256(j) <= Pow256(k)
    decreases k
  {
    if j < k {
      Pow256Monotone(j, k - 1);
    }
  }

  /**
    `new(big.Int).SetBytes(bs).Uint64()`: the low 64 bits of the big-endian
    value, which is the whole value for inputs of at most eight bytes.
  */
  function Uint64(bs: Bytes): (n: nat)
    ensures n < TwoTo64
    ensures |bs| <= 8 ==> n == BigEndian(bs)
  {
    if |bs| <= 8 then
      Pow256Monotone(|bs|, 8);
      Pow256Eight();
      BigEndian(bs) % TwoTo64
    else
      BigEndian(bs) % TwoTo64
  }

  /** The big-endian encoding of `n` in exactly `k` bytes, higher bytes dropped. */
  function EncodeBigEndian(n: nat, k: nat): (bs: Bytes)
    ensures |bs| == k
  {
    if k == 0 then [] else EncodeBigEndian(n / 256, k - 1) + [(n % 256) as uint8]
  }

  /** A value that fits in `k` bytes is read back from its encoding. */
  lemma {:induction false} EncodeBigEndianRoundTrip(n: nat, k: nat)
    requires n < Pow256(k)
    ensures BigEndian(EncodeBigEndian(n, k)) == n
    decreases k
  {
    if k > 0 {
      var bs := EncodeBigEndian(n, k);
      EncodeBigEndianRoundTrip(n / 256, k - 1);
      assert bs[..|bs| - 1] == EncodeBigEndian(n / 256, k - 1);
      assert BigEndian(bs) == (n / 256) * 256 + n % 256;
    }
  }

  /** A `uint256` as one 32-byte word of the Solidity Contract ABI encoding. */
  function Word(n: nat): (w: Bytes)
    requires n < Pow256(WordLength)
    ensures |w| == WordLength
    ensures BigEndian(w) == n
  {
    EncodeBigEndianRoundTrip(n, WordLength);
    EncodeBigEndian(n, WordLength)
  }

  /** An address as one ABI word: twelve zero bytes, then the twenty address bytes. */
  function AddressWord(a: Bytes): (w: Bytes)
    requires |a| == AddressLength
    ensures |w| == WordLength
  {
    seq(WordLength - AddressLength, _ => 0) + a
  }

  /**
    `common.BytesToAddress`: keeps the last 20 bytes of a longer input and
    left-pads a shorter one with zeros.  On a 32-byte word this is the address
    right-aligned in that word.
  */
  function BytesToAddress(bs: Bytes): (a: Bytes)
    ensures |a| == AddressLength
    ensures |bs| == WordLength ==> a == bs[WordLength - AddressLength..]
  {
    if |bs| >= AddressLength then bs[|bs| - AddressLength..]
    else seq(AddressLength - |bs|, _ => 0) + bs
  }

  /** The `i`-th 32-byte word of a data payload. */
  function WordAt(data: Bytes, i: nat): (w: Bytes)
    requires WordLength * (i + 1) <= |data|
    ensures |w| == WordLength
  {
    data[WordLength * i..WordLength * (i + 1)]
  }

  function HexDigit(d: nat): char
    requires d < 16
  {
    if d < 10 then ('0' as int + d) as char else ('a' as int + d - 10) as char
  }

  function HexBody(bs: Bytes): (s: string)
    ensures |s| == 2 * |bs|
  {
    if bs == [] then "" else [HexDigit(bs[0] as nat / 16), HexDigit(bs[0] as nat % 16)] + HexBody(bs[1..])
  }

  /**
    `0x` followed by two lower-case hexadecimal digits per byte
    (the text of a hash or of an address).
  */
  function Hex(bs: Bytes): (s: string)
    ensures |s| == 2 + 2 * |bs| && s[..2] == "0x"
  {
    "0x" + HexBody(bs)
  }

  /** Different bytes never share a hexadecimal text, so addresses are told apart by their text. */
  lemma {:induction false} HexInjective(a: Bytes, b: Bytes)
    ensures Hex(a) == Hex(b) <==> a == b
  {
    if Hex(a) == Hex(b) {
      assert HexBody(a) == Hex(a)[2..] && HexBody(b) == Hex(b)[2..];
      HexBodyInjective(a, b);
    }
  }

  lemma {:induction false} HexBodyInjective(a: Bytes, b: Bytes)
    requires HexBody(a) == HexBody(b)
    ensures a == b
    decreases |a|
  {
    if a != [] {
      var s := HexBody(a);
      assert b != [];
      assert s[0] == HexDigit(a[0] as nat / 16) && s[1] == HexDigit(a[0] as nat % 16);
      assert s[0] == HexDigit(b[0] as nat / 16) && s[1] == HexDigit(b[0] as nat % 16);
      HexDigitInjective(a[0] as nat / 16, b[0] as nat / 16);
      HexDigitInjective(a[0] as nat % 16, b[0] as nat % 16);
      assert s[2..] == HexBody(a[1..]) && HexBody(b)[2..] == HexBody(b[1..]);
      HexBodyInjective(a[1..], b[1..]);
      assert a == [a[0]] + a[1..] && b == [b[0]] + b[1..];
    }
  }

  lemma HexDigitInjective(d: nat, e: nat)
    requires d < 16 && e < 16 && HexDigit(d) == HexDigit(e)
    ensures d == e
  {
  }

  predicate IsDigit(c: char)
  {
    '0' <= c <= '9'
  }

  function DigitChar(d: nat): char
    requires d < 10
  {
    ('0' as int + d) as char
  }

  /** The decimal text of a natural number, without leading zeros (`big.Int.String`). */
  function DecimalString(n: nat): (s: string)
    ensures |s| >= 1
    ensures forall i :: 0 <= i < |s| ==> IsDigit(s[i])
    ensures n >= 10 ==> s[0] != '0'
  {
    if n < 10 then [DigitChar(n)] else DecimalString(n / 10) + [DigitChar(n % 10)]
  }

  /** The value of a string of decimal digits; `None` as soon as a character is not a digit. */
  function DigitsValue(s: string): (r: Option<nat>)
    ensures r.Some? <==> forall i :: 0 <= i < |s| ==> IsDigit(s[i])
  {
    if s == [] then Some(0)
    else
      var last := s[|s| - 1];
      match DigitsValue(s[..|s| - 1])
      case None => None
      case Some(v) =>
        if IsDigit(last) then Some(v * 10 + (last as int - '0' as int)) else None
  }

  /**
    Parsing decimal text back into a number: the empty string and any string
    holding a non-digit have no value.
  */
  function DecimalValue(s: string): (r: Option<nat>)
    ensures r.Some? <==> |s| >= 1 && forall i :: 0 <= i < |s| ==> IsDigit(s[i])
  {
    if s == [] then None else DigitsValue(s)
  }

  /** The decimal text of `n` parses back to `n`. */
  lemma {:induction false} DecimalRoundTrip(n: nat)
    ensures DecimalValue(DecimalString(n)) == Some(n)
  {
    var s := DecimalString(n);
    if n < 10 {
      assert s[..0] == [];
      assert s[0] as int - '0' as int == n;
      assert DigitsValue(s[..0]) == Some(0);
      assert DigitsValue(s) == Some(n);
    } else {
      DecimalRoundTrip(n / 10);
      var prefix := DecimalString(n / 10);
      assert s[..|s| - 1] == prefix;
      assert DigitsValue(prefix) == Some(n / 10);
      assert s[|s| - 1] as int - '0' as int == n % 10;
    }
  }

  /** Distinct numbers have distinct decimal texts. */
  lemma DecimalStringInjective(a: nat, b: nat)
    ensures DecimalString(a) == DecimalString(b) <==> a == b
  {
    DecimalRoundTrip(a);
    DecimalRoundTrip(b);
  }

  /** An address word decodes back to its address. */
  lemma AddressWordRoundTrip(a: Bytes)
    requires |a| == AddressLength
    ensures BytesToAddress(AddressWord(a)) == a
  {
    assert AddressWord(a)[WordLength - AddressLength..] == a;
  }

  /** A word holding a value below 2^64 is read back whole by `Uint64`. */
  lemma WordUint64(n: nat)
    requires n < TwoTo64
    ensures Pow256(WordLength) > n
    ensures Uint64(Word(n)) == n
  {
    Pow256Monotone(8, WordLength);
    Pow256Eight();
    var w := Word(n);
    assert |w| > 8;
    assert Uint64(w) == BigEndian(w) % TwoTo64;
    assert BigEndian(w) == n;
    SmallMod(n, TwoTo64);
  }

  lemma SmallMod(n: nat, m: nat)
    requires n < m
    ensures n % m == n
  {
  }

  lemma Pow256Eight()
    ensures Pow256(8) == TwoTo64
  {
  }
}
