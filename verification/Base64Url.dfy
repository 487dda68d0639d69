/** base64url_encode and base64url_decode. */
module Base64Url {
  import opened Bytes
  import opened Radix

  /** B64_CHARS: A to Z, a to z, 0 to 9, plus and slash. */
  function Char(d: int): char
    requires 0 <= d < 64
  {
    if d < 26 then 'A' + d as char
    else if d < 52 then 'a' + (d - 26) as char
    else if d < 62 then '0' + (d - 52) as char
    else if d == 62 then '+'
    else '/'
  }

  /** b64_char_value: both alphabets of RFC 4648 are read; -1 for anything else. */
  function CharValue(c: char): (v: int)
    ensures -1 <= v < 64
  {
    if 'A' <= c <= 'Z' then c as int - 'A' as int
    else if 'a' <= c <= 'z' then c as int - 'a' as int + 26
    else if '0' <= c <= '9' then c as int - '0' as int + 52
    else if c == '+' || c == '-' then 62
    else if c == '/' || c == '_' then 63
    else -1
  }

  /** The URL and file name safe alphabet. */
  function UrlChar(d: int): char
    requires 0 <= d < 64
  {
    if d == 62 then '-' else if d == 63 then '_' else Char(d)
  }

  function UrlText(ds: seq<int>): (s: string)
    requires Below(64, ds)
    ensures |s| == |ds|
  {
    seq(|ds|, i requires 0 <= i < |ds| => UrlChar(ds[i]))
  }

  /** The values of the alphabet characters of a text; every other character is passed over. */
  function Values(s: string): (ds: seq<int>)
    ensures Below(64, ds)
  {
    if s == [] then []
    else
      var v := CharValue(s[|s| - 1]);
      Values(s[..|s| - 1]) + if v < 0 then [] else [v]
  }

  function Url(c: char): char {
    if c == '+' then '-' else if c == '/' then '_' else c
  }

  lemma UrlOfChar(d: int)
    requires 0 <= d < 64
    ensures Url(Char(d)) == UrlChar(d)
    ensures CharValue(UrlChar(d)) == d && UrlChar(d) != '+' && UrlChar(d) != '/'
  {
  }

  lemma {:induction false} ValuesOfText(ds: seq<int>)
    requires Below(64, ds)
    ensures Values(UrlText(ds)) == ds
  {
    hide CharValue, UrlChar;
    if ds != [] {
      var front, last := ds[..|ds| - 1], ds[|ds| - 1];
      ValuesOfText(front);
      assert UrlText(ds)[..|ds| - 1] == UrlText(front);
      UrlOfChar(last);
      assert ds == front + [last];
    }
  }

  method EncodeBase64Url(data: seq<byte>) returns (result: string)
    ensures Pow2(6) == 64 && result == UrlText(Encode(6, data))
  {
    hide Pow2, ToDigits, FromDigits, Encode, Regrouped, Bits, ShiftIn, Char, UrlText;
    Pow2Of8();
    result := [];
    var val, bits := 0, 0;
    ghost var ds: seq<int> := [];
    Start(6);
    for i := 0 to |data|
      invariant 0 <= bits < 6 && |ds| * 6 + bits == 8 * i
      invariant |result| == |ds| && Below(64, ds) && forall j :: 0 <= j < |ds| ==> result[j] == Char(ds[j])
      invariant Regrouped(FromDigits(256, data[..i]), 6, ds, val, bits)
    {
      ghost var acc := val;
      val := ShiftIn(val, 8, data[i]);
      FeedByte(data, i, 6, ds, acc, bits, val);
      bits := bits + 8;
      while bits >= 6
        invariant 0 <= bits < 14 && |ds| * 6 + bits == 8 * (i + 1)
        invariant |result| == |ds| && Below(64, ds) && forall j :: 0 <= j < |ds| ==> result[j] == Char(ds[j])
        invariant Regrouped(FromDigits(256, data[..i + 1]), 6, ds, val, bits)
      {
        Emit(FromDigits(256, data[..i + 1]), 6, ds, val, bits);
        bits := bits - 6;
        var d := Bits(val, bits, 6);
        result := result + [Char(d)];
        ds := ds + [d];
      }
    }
    assert data[..|data|] == data;
    if bits > 0 {
      var last := ShiftIn(val, 6 - bits, 0);
      Fill(FromDigits(256, data), 6, ds, val, bits, last);
      var d := Bits(last, 0, 6);
      result := result + [Char(d)];
      ds := ds + [d];
      Finished(6, data, ds, last, 6 - bits);
    } else {
      Finished(6, data, ds, val, 0);
    }
    result := MakeUrlSafe(result, ds);
  }

  /** The second loop of the encoder. */
  method MakeUrlSafe(plain: string, ghost ds: seq<int>) returns (result: string)
    requires |plain| == |ds| && Below(64, ds) && forall j :: 0 <= j < |ds| ==> plain[j] == Char(ds[j])
    ensures result == UrlText(ds)
  {
    hide UrlChar, Char;
    result := plain;
    for j := 0 to |result|
      invariant |result| == |plain|
      invariant forall k :: 0 <= k < j ==> result[k] == Url(plain[k])
      invariant forall k :: j <= k < |plain| ==> result[k] == plain[k]
    {
      if result[j] == '+' {
        result := result[j := '-'];
      } else if result[j] == '/' {
        result := result[j := '_'];
      }
    }
    forall k | 0 <= k < |ds| ensures result[k] == UrlChar(ds[k]) {
      UrlOfChar(ds[k]);
    }
  }

  method DecodeBase64Url(input: string) returns (out: seq<byte>)
    ensures out == Decode(6, Values(input))
  {
    hide Pow2, ToDigits, FromDigits, Encode, Decode, CharValue, Regrouped, Bits, ShiftIn;
    Pow2Of8();
    out := [];
    var val, bits := 0, 0;
    Start(8);
    ghost var ds := [];
    for i := 0 to |input|
      invariant ds == Values(input[..i])
      invariant 0 <= bits < 8 && |out| * 8 + bits == 6 * |ds|
      invariant Regrouped(FromDigits(64, ds), 8, out, val, bits)
    {
      var c := input[i];
      assert input[..i + 1][..i] == input[..i];
      Ignored();
      if c == '=' || c == '\n' || c == '\r' {
        continue;
      }
      var v := CharValue(c);
      if v < 0 {
        continue;
      }
      ghost var acc := val;
      val := ShiftIn(val, 6, v);
      FeedDigit(ds, v, 6, 8, out, acc, bits, val);
      ds := ds + [v];
      bits := bits + 6;
      if bits >= 8 {
        Emit(FromDigits(64, ds), 8, out, val, bits);
        bits := bits - 8;
        out := out + [Bits(val, bits, 8)];
      }
    }
    assert input[..|input|] == input;
    DecodeFinished(6, ds, out, val, bits);
  }

  lemma Ignored()
    ensures CharValue('=') == -1 && CharValue('\n') == -1 && CharValue('\r') == -1
  {
  }

  /** base64url_decode(base64url_encode(d)) = d for every byte string. */
  method EncodeThenDecode(data: seq<byte>) returns (text: string, back: seq<byte>)
    ensures back == data
    ensures |text| == EncodedLength(6, |data|)
    ensures forall i :: 0 <= i < |text| ==> CharValue(text[i]) >= 0 && text[i] != '+' && text[i] != '/'
  {
    text := EncodeBase64Url(data);
    back := DecodeBase64Url(text);
    TextRoundTrip(data);
    TextIsUrlSafe(Encode(6, data));
  }

  lemma TextRoundTrip(data: seq<byte>)
    ensures Pow2(6) == 64 && Decode(6, Values(UrlText(Encode(6, data)))) == data
  {
    hide Encode, Decode, Values, UrlText, Pow2;
    Pow2Of8();
    ValuesOfText(Encode(6, data));
    RoundTrip(6, data);
  }

  lemma TextIsUrlSafe(ds: seq<int>)
    requires Below(64, ds)
    ensures forall i :: 0 <= i < |UrlText(ds)| ==>
              var c := UrlText(ds)[i]; CharValue(c) >= 0 && c != '+' && c != '/'
  {
    forall i | 0 <= i < |ds| ensures var c := UrlChar(ds[i]); CharValue(c) >= 0 && c != '+' && c != '/' {
      UrlOfChar(ds[i]);
    }
  }

  function OnlyAlphabet(s: string): string {
    if s == [] then []
    else OnlyAlphabet(s[..|s| - 1]) + if CharValue(s[|s| - 1]) < 0 then [] else [s[|s| - 1]]
  }

  /** Decoding depends only on the alphabet characters of its input. */
  lemma {:induction false} DecodingSeesAlphabetOnly(s: string)
    ensures Values(OnlyAlphabet(s)) == Values(s)
  {
    hide CharValue;
    if s != [] {
      DecodingSeesAlphabetOnly(s[..|s| - 1]);
      var kept := OnlyAlphabet(s[..|s| - 1]);
      assert (kept + [s[|s| - 1]])[..|kept|] == kept && kept + [] == kept;
    }
  }

  /** The URL and filename safe alphabet of section 5 of RFC 4648, and the last two values of section 4,
      which are read as well; padding and line breaks are not characters of either. */
  lemma AlphabetIs(d: nat)
    requires d < 64
    ensures UrlChar(d) == ("ABCDEFGHIJKLMNOPQRSTUVWXYZ" + ("abcdefghijklmnopqrstuvwxyz" + "0123456789-_"))[d]
    ensures CharValue('+') == 62 && CharValue('/') == 63
    ensures CharValue('=') == -1 && CharValue('\n') == -1 && CharValue('\r') == -1
  {
    if d < 26 {
      UpperCase(d);
    } else if d < 52 {
      LowerCase(d - 26);
    } else {
      Digit(d - 52);
    }
  }

  lemma UpperCase(d: nat)
    requires d < 26
    ensures "ABCDEFGHIJKLMNOPQRSTUVWXYZ"[d] == 'A' + d as char
  {
  }

  lemma LowerCase(d: nat)
    requires d < 26
    ensures "abcdefghijklmnopqrstuvwxyz"[d] == 'a' + d as char
  {
  }

  lemma Digit(d: nat)
    requires d < 12
    ensures "0123456789-_"[d] == if d == 10 then '-' else if d == 11 then '_' else '0' + d as char
  {
  }
}
