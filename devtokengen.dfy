/**
 * The device-token generator (devtokengen/main.go): a counter, seeded once
 * from a 63-bit random draw, that is incremented for every token; each token
 * is the counter's big-endian bytes, left-padded with zeros to the token
 * length, and is printed as lower-case hexadecimal.
 */
module DevTokenGen {
  import opened Wrappers
  import opened Bytes

  const DefaultTokenLen := 32

  /** Exclusive upper bound of rand.Int63(). */
  const Int63Bound: nat := 0x8000_0000_0000_0000

  function Zeros(n: nat): (r: seq<byte>)
    ensures |r| == n && forall i :: 0 <= i < n ==> r[i] == 0
  {
    seq(n, _ => 0)
  }

  /**
   * expandBytes: `b` itself when it already has `minLen` bytes or more,
   * otherwise `b` right-aligned in `minLen` bytes with zeros in front.
   */
  function ExpandBytes(b: seq<byte>, minLen: int): (r: seq<byte>)
    ensures |b| >= minLen ==> r == b
    ensures |r| == if |b| >= minLen then |b| else minLen
    ensures r[|r| - |b|..] == b
    ensures forall i :: 0 <= i < |r| - |b| ==> r[i] == 0
  {
    if |b| >= minLen then b else Zeros(minLen - |b|) + b
  }

  lemma {:induction false} ZeroPaddingKeepsValue(n: nat, b: seq<byte>)
    ensures BigEndian(Zeros(n) + b) == BigEndian(b)
  {
    if n > 0 {
      assert Zeros(n) + b == [0] + (Zeros(n - 1) + b);
      BigEndianLeadingZero(Zeros(n - 1) + b);
      ZeroPaddingKeepsValue(n - 1, b);
    } else {
      assert Zeros(n) + b == b;
    }
  }

  /** Padding never changes the number the bytes stand for. */
  lemma ExpandBytesKeepsValue(b: seq<byte>, minLen: int)
    ensures BigEndian(ExpandBytes(b, minLen)) == BigEndian(b)
  {
    if |b| < minLen {
      ZeroPaddingKeepsValue(minLen - |b|, b);
    }
  }

  /** big.Int's Bytes(): the shortest big-endian encoding, empty for zero (MinimalBytesValue). */
  function MinimalBytes(n: nat): (r: seq<byte>)
    ensures r == [] <==> n == 0
    ensures r != [] ==> r[0] != 0
  {
    if n == 0 then [] else MinimalBytes(n / 0x100) + [n % 0x100]
  }

  /** The minimal encoding spells out its number. */
  lemma {:induction false} MinimalBytesValue(n: nat)
    ensures BigEndian(MinimalBytes(n)) == n
  {
    if n > 0 {
      MinimalBytesValue(n / 0x100);
      BigEndianAppend(MinimalBytes(n / 0x100), n % 0x100);
    }
  }

  lemma {:induction false} LeadingNonZeroPositive(s: seq<byte>)
    requires s != [] && s[0] != 0
    ensures BigEndian(s) > 0
  {
    if |s| > 1 {
      LeadingNonZeroPositive(s[..|s| - 1]);
    }
  }

  /** The minimal encoding is the only encoding without a leading zero byte. */
  lemma {:induction false} MinimalBytesUnique(s: seq<byte>)
    requires s == [] || s[0] != 0
    ensures MinimalBytes(BigEndian(s)) == s
  {
    if s != [] {
      var init, last := s[..|s| - 1], s[|s| - 1];
      LeadingNonZeroPositive(s);
      assert BigEndian(s) / 0x100 == BigEndian(init) && BigEndian(s) % 0x100 == last;
      MinimalBytesUnique(init);
    }
  }

  lemma {:induction false} MinimalBytesShort(n: nat, k: nat)
    requires n < Pow256(k)
    ensures |MinimalBytes(n)| <= k
  {
    if n > 0 {
      assert k > 0;
      assert n / 0x100 < Pow256(k - 1);
      MinimalBytesShort(n / 0x100, k - 1);
    }
  }

  /** The minimal encoding of `n` fits in `k` bytes exactly when `n` is below 256 to the power k. */
  lemma {:induction false} MinimalBytesFits(n: nat, k: nat)
    ensures |MinimalBytes(n)| <= k <==> n < Pow256(k)
  {
    if |MinimalBytes(n)| <= k {
      MinimalBytesValue(n);
      BigEndianBound(MinimalBytes(n));
      Pow256Monotone(|MinimalBytes(n)|, k);
    }
    if n < Pow256(k) {
      MinimalBytesShort(n, k);
    }
  }

  /** The token GenToken returns once the counter holds `counter` and the token length is `tokenLen`. */
  function TokenFor(counter: nat, tokenLen: int): seq<byte>
  {
    ExpandBytes(MinimalBytes(counter), tokenLen)
  }

  /** A token spells out its counter, and is as long as the token length or the counter's bytes. */
  lemma TokenValue(counter: nat, tokenLen: int)
    ensures BigEndian(TokenFor(counter, tokenLen)) == counter
    ensures |TokenFor(counter, tokenLen)| == if |MinimalBytes(counter)| >= tokenLen then |MinimalBytes(counter)| else tokenLen
  {
    MinimalBytesValue(counter);
    ExpandBytesKeepsValue(MinimalBytes(counter), tokenLen);
  }

  /**
   * A token is exactly the token length when its counter fits in that many
   * bytes; a larger counter makes the token longer.
   */
  lemma TokenLength(counter: nat, tokenLen: nat)
    ensures |TokenFor(counter, tokenLen)| == tokenLen <==> counter < Pow256(tokenLen)
  {
    MinimalBytesFits(counter, tokenLen);
  }

  /**
   * The counter starts from a 63-bit draw, so the counters of the first
   * tokens (up to 2^63 and well beyond) give tokens of exactly the default
   * 32 bytes.
   */
  lemma Int63CountersFit(counter: nat)
    requires counter <= Int63Bound
    ensures |TokenFor(counter, DefaultTokenLen)| == DefaultTokenLen
  {
    assert Pow256(8) == 0x1_0000_0000_0000_0000;
    Pow256Monotone(8, DefaultTokenLen);
    TokenLength(counter, DefaultTokenLen);
  }

  /** DevtokenGenerator: the token length and the counter, nil until the first token. */
  class DevtokenGenerator {
    var tokenLen: int
    var nextToken: Option<nat>

    /** A generator as `new(DevtokenGenerator)` or a struct literal builds it. */
    constructor (tokenLen: int)
      ensures this.tokenLen == tokenLen && nextToken == None
    {
      this.tokenLen := tokenLen;
      nextToken := None;
    }

    /**
     * GenToken: defaults the token length to 32, seeds the counter from
     * `seed` (the rand.Int63() draw) if it is still nil, increments it, and
     * returns it as a token.
     */
    method GenToken(seed: nat) returns (token: seq<byte>)
      requires seed < Int63Bound
      modifies this
      ensures tokenLen == if old(tokenLen) <= 0 then DefaultTokenLen else old(tokenLen)
      ensures nextToken.Some?
      ensures nextToken.value == (if old(nextToken).None? then seed else old(nextToken).value) + 1
      ensures token == TokenFor(nextToken.value, tokenLen)
    {
      if tokenLen <= 0 {
        tokenLen := DefaultTokenLen;
      }
      if nextToken.None? {
        nextToken := Some(seed);
      }
      nextToken := Some(nextToken.value + 1);
      token := ExpandBytes(MinimalBytes(nextToken.value), tokenLen);
    }
  }

  // ---------------------------------------------------------------------
  // Hexadecimal text (hex.EncodeToString).

  /** The digits hex.EncodeToString writes: 0-9, then lower-case a-f. */
  predicate IsLowerHex(c: char)
  {
    '0' <= c <= '9' || 'a' <= c <= 'f'
  }

  function HexDigit(d: nat): (c: char)
    requires d < 16
    ensures IsLowerHex(c)
  {
    if d < 10 then ('0' as int + d) as char else ('a' as int + d - 10) as char
  }

  function HexValue(c: char): (r: Option<nat>)
    ensures r.Some? ==> r.value < 16
  {
    if '0' <= c <= '9' then Some(c as int - '0' as int)
    else if 'a' <= c <= 'f' then Some(c as int - 'a' as int + 10)
    else None
  }

  lemma HexDigitValue(d: nat)
    requires d < 16
    ensures HexValue(HexDigit(d)) == Some(d)
  {
  }

  /** devTokenToString: two lower-case hex digits per byte, high nibble first. */
  function DevTokenToString(token: seq<byte>): (str: string)
    ensures |str| == 2 * |token|
    ensures forall i :: 0 <= i < |str| ==> IsLowerHex(str[i])
  {
    if token == [] then ""
    else [HexDigit(token[0] / 16), HexDigit(token[0] % 16)] + DevTokenToString(token[1..])
  }

  /** Reads back the lower-case hexadecimal text DevTokenToString writes. */
  function HexToBytes(str: string): Option<seq<byte>>
    decreases |str|
  {
    if str == [] then Some([])
    else if |str| == 1 then None
    else
      var hi, lo, rest := HexValue(str[0]), HexValue(str[1]), HexToBytes(str[2..]);
      if hi.None? || lo.None? || rest.None? then None
      else Some([hi.value * 16 + lo.value] + rest.value)
  }

  /** Two hex digits in front of some text read back as the byte they spell. */
  lemma HexToBytesPair(hi: nat, lo: nat, rest: string)
    requires hi < 16 && lo < 16
    ensures HexToBytes([HexDigit(hi), HexDigit(lo)] + rest)
         == if HexToBytes(rest).None? then None else Some([hi * 16 + lo] + HexToBytes(rest).value)
  {
    var str := [HexDigit(hi), HexDigit(lo)] + rest;
    HexDigitValue(hi);
    HexDigitValue(lo);
    assert str[0] == HexDigit(hi) && str[1] == HexDigit(lo) && str[2..] == rest;
  }

  /** The hex text of a token reads back as exactly that token. */
  lemma {:induction false} DevTokenToStringRoundTrip(token: seq<byte>)
    ensures HexToBytes(DevTokenToString(token)) == Some(token)
    decreases |token|
  {
    if token != [] {
      var b := token[0];
      HexToBytesPair(b / 16, b % 16, DevTokenToString(token[1..]));
      DevTokenToStringRoundTrip(token[1..]);
      assert b / 16 * 16 + b % 16 == b;
      assert [b] + token[1..] == token;
    }
  }

  /** `str` is the hex text of a token of at least the default length that spells out `counter`. */
  predicate TokenText(str: string, counter: nat)
  {
    && HexToBytes(str).Some?
    && BigEndian(HexToBytes(str).value) == counter
    && |HexToBytes(str).value| >= DefaultTokenLen
  }

  lemma TokenTextOf(token: seq<byte>, counter: nat)
    requires BigEndian(token) == counter && |token| >= DefaultTokenLen
    ensures TokenText(DevTokenToString(token), counter)
  {
    DevTokenToStringRoundTrip(token);
  }

  /** The lines for counters seed + 1, seed + 2, ... in order. */
  predicate CountsFrom(strs: seq<string>, seed: nat)
  {
    forall j :: 0 <= j < |strs| ==> TokenText(strs[j], seed + 1 + j)
  }

  /** Appending the hex text of the token for the next counter keeps the lines in order. */
  lemma AppendLine(strs: seq<string>, seed: nat, token: seq<byte>, counter: nat)
    requires CountsFrom(strs, seed)
    requires counter == seed + 1 + |strs| && token == TokenFor(counter, DefaultTokenLen)
    ensures CountsFrom(strs + [DevTokenToString(token)], seed)
  {
    TokenValue(counter, DefaultTokenLen);
    TokenTextOf(token, counter);
    var strs' := strs + [DevTokenToString(token)];
    forall j | 0 <= j < |strs'|
      ensures TokenText(strs'[j], seed + 1 + j)
    {
      if j < |strs| {
        assert strs'[j] == strs[j];
      }
    }
  }

  /**
   * The loop of the generator's main, without the flags and the template:
   * `count` tokens from a fresh generator, each turned into hex text. The
   * first GenToken takes the seed, so line i reads back as a token of at
   * least 32 bytes spelling seed + 1 + i: consecutive counter values.
   */
  method GenerateTokens(count: nat, seed: nat) returns (strs: seq<string>)
    requires seed < Int63Bound
    ensures |strs| == count
    ensures CountsFrom(strs, seed)
  {
    var g := new DevtokenGenerator(0);
    strs := [];
    for i := 0 to count
      invariant |strs| == i
      invariant g.tokenLen == if i == 0 then 0 else DefaultTokenLen
      invariant g.nextToken == if i == 0 then None else Some(seed + i)
      invariant CountsFrom(strs, seed)
    {
      var token := g.GenToken(seed);
      AppendLine(strs, seed, token, g.nextToken.value);
      strs := strs + [DevTokenToString(token)];
    }
  }
}
