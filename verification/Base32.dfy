/** base32_encode and base32_decode of the TOTP secrets: a signed 32-bit accumulator. */
module Base32 {
  import opened Bytes
  import opened Radix

  const ALPHABET := "ABCDEFGHIJKLMNOPQRSTUVWXYZ234567"

  function CharValue(c: char): (v: int)
    ensures -1 <= v < 32
  {
    if 'A' <= c <= 'Z' then c as int - 'A' as int
    else if 'a' <= c <= 'z' then c as int - 'a' as int
    else if '2' <= c <= '7' then c as int - '2' as int + 26
    else -1
  }

  function Text(ds: seq<int>): (s: string)
    requires Below(32, ds)
    ensures |s| == |ds|
  {
    seq(|ds|, i requires 0 <= i < |ds| => ALPHABET[ds[i]])
  }

  function Values(s: string): (ds: seq<int>)
    ensures Below(32, ds)
  {
    if s == [] then []
    else
      var v := CharValue(s[|s| - 1]);
      Values(s[..|s| - 1]) + if v < 0 then [] else [v]
  }

  lemma ValueOfChar(d: int)
    requires 0 <= d < 32
    ensures CharValue(ALPHABET[d]) == d
  {
    if d < 26 {
      assert ALPHABET[d] == ALPHABET[..26][d] == 'A' + d as char;
    } else {
      assert ALPHABET[d] == ALPHABET[26..32][d - 26] == '2' + (d - 26) as char;
    }
  }

  lemma {:induction false} ValuesOfText(ds: seq<int>)
    requires Below(32, ds)
    ensures Values(Text(ds)) == ds
  {
    hide CharValue;
    if ds != [] {
      var front, last := ds[..|ds| - 1], ds[|ds| - 1];
      ValuesOfText(front);
      assert Text(ds)[..|ds| - 1] == Text(front);
      ValueOfChar(last);
      assert ds == front + [last];
    }
  }

  method EncodeBase32(data: seq<byte>) returns (result: string)
    ensures Pow2(5) == 32 && result == Text(Encode(5, data))
  {
    hide Pow2, ToDigits, FromDigits, Encode, CharValue, Regrouped, Bits;
    Pow2Of8();
    result := [];
    var bits, buffer := 0, 0;
    ghost var ds: seq<int> := [];
    Start(5);
    for i := 0 to |data|
      invariant 0 <= bits < 5 && |ds| * 5 + bits == 8 * i
      invariant Below(32, ds) && result == Text(ds)
      invariant Regrouped(FromDigits(256, data[..i]), 5, ds, buffer, bits)
    {
      ghost var acc := buffer;
      buffer := ShiftInSigned(buffer, 8, data[i]);
      FeedByte(data, i, 5, ds, acc, bits, buffer);
      bits := bits + 8;
      while bits >= 5
        invariant 0 <= bits < 13 && |ds| * 5 + bits == 8 * (i + 1)
        invariant Below(32, ds) && result == Text(ds)
        invariant Regrouped(FromDigits(256, data[..i + 1]), 5, ds, buffer, bits)
      {
        Emit(FromDigits(256, data[..i + 1]), 5, ds, buffer, bits);
        bits := bits - 5;
        var d := Bits(buffer, bits, 5);
        result := result + [ALPHABET[d]];
        ds := ds + [d];
      }
    }
    assert data[..|data|] == data;
    if bits > 0 {
      var last := ShiftInSigned(buffer, 5 - bits, 0);
      Fill(FromDigits(256, data), 5, ds, buffer, bits, last);
      var d := Bits(last, 0, 5);
      result := result + [ALPHABET[d]];
      ds := ds + [d];
      Finished(5, data, ds, last, 5 - bits);
    } else {
      Finished(5, data, ds, buffer, 0);
    }
  }

  method DecodeBase32(encoded: string) returns (result: seq<byte>)
    ensures result == Decode(5, Values(encoded))
  {
    hide Pow2, ToDigits, FromDigits, Encode, Decode, Regrouped, Bits;
    Pow2Of8();
    result := [];
    var bits, buffer := 0, 0;
    Start(8);
    ghost var ds := [];
    for i := 0 to |encoded|
      invariant ds == Values(encoded[..i])
      invariant 0 <= bits < 8 && |result| * 8 + bits == 5 * |ds|
      invariant Regrouped(FromDigits(32, ds), 8, result, buffer, bits)
    {
      var c := encoded[i];
      assert encoded[..i + 1][..i] == encoded[..i];
      if c == '=' || c == ' ' {
        continue;
      }
      var val;
      if 'A' <= c <= 'Z' {
        val := c as int - 'A' as int;
      } else if 'a' <= c <= 'z' {
        val := c as int - 'a' as int;
      } else if '2' <= c <= '7' {
        val := c as int - '2' as int + 26;
      } else {
        continue;
      }
      ghost var acc := buffer;
      buffer := ShiftInSigned(buffer, 5, val);
      FeedDigit(ds, val, 5, 8, result, acc, bits, buffer);
      ds := ds + [val];
      bits := bits + 5;
      if bits >= 8 {
        Emit(FromDigits(32, ds), 8, result, buffer, bits);
        bits := bits - 8;
        result := result + [Bits(buffer, bits, 8)];
      }
    }
    assert encoded[..|encoded|] == encoded;
    DecodeFinished(5, ds, result, buffer, bits);
  }

  /** base32_decode(base32_encode(d)) = d for every byte string. */
  method EncodeThenDecode(data: seq<byte>) returns (text: string, back: seq<byte>)
    ensures back == data
    ensures |text| == EncodedLength(5, |data|)
  {
    text := EncodeBase32(data);
    back := DecodeBase32(text);
    TextRoundTrip(data);
  }

  lemma TextRoundTrip(data: seq<byte>)
    ensures Pow2(5) == 32 && Decode(5, Values(Text(Encode(5, data)))) == data
  {
    hide Encode, Decode, Values, Text, Pow2;
    Pow2Of8();
    ValuesOfText(Encode(5, data));
    RoundTrip(5, data);
  }

  function Upper(c: char): char {
    if 'a' <= c <= 'z' then 'A' + (c - 'a') else c
  }

  function Normalized(s: string): string {
    if s == [] then []
    else Normalized(s[..|s| - 1]) + if CharValue(s[|s| - 1]) < 0 then [] else [Upper(s[|s| - 1])]
  }

  /** Decoding depends only on the alphabet characters of its input, in either case. */
  lemma {:induction false} DecodingSeesAlphabetOnly(s: string)
    ensures Values(Normalized(s)) == Values(s)
  {
    hide CharValue;
    if s != [] {
      DecodingSeesAlphabetOnly(s[..|s| - 1]);
      var kept := Normalized(s[..|s| - 1]);
      UpperValue(s[|s| - 1]);
      assert (kept + [Upper(s[|s| - 1])])[..|kept|] == kept && kept + [] == kept;
    }
  }

  lemma UpperValue(c: char)
    ensures CharValue(Upper(c)) == CharValue(c)
  {
  }
}
