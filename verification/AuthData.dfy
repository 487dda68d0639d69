/** parse_cose_ec_key and parse_auth_data: the COSE key map (section 7.1.1 of RFC 9053) and the
    authenticator data layout (sections 6.1 and 6.5.1 of WebAuthn Level 2). */
module AuthData {
  import opened Base64Url
  import opened Bytes
  import opened Cbor
  import opened Options
  import opened Radix

  // ---- parse_cose_ec_key ----

  datatype CoseKey = CoseKey(kty: int, alg: int, crv: int, x: seq<byte>, y: seq<byte>)

  const NO_KEY := CoseKey(0, 0, 0, [], [])

  /** static_cast<int> of a 64-bit value. */
  function ToInt32(v: int): (r: int)
    ensures -0x8000_0000 <= r < 0x8000_0000 && (r - v) % 0x1_0000_0000 == 0
    ensures -0x8000_0000 <= v < 0x8000_0000 ==> r == v
  {
    var u := v % 0x1_0000_0000;
    if u >= 0x8000_0000 then u - 0x1_0000_0000 else u
  }

  function EntriesAt(data: seq<byte>, pos: nat, n: nat, key: CoseKey): Result<CoseKey>
    decreases n
  {
    if n == 0 then Ok(key)
    else
      var tag :- IntAt(data, pos);
      if tag.value == 1 then
        var v :- IntAt(data, tag.next);
        EntriesAt(data, v.next, n - 1, key.(kty := ToInt32(v.value)))
      else if tag.value == 3 then
        var v :- IntAt(data, tag.next);
        EntriesAt(data, v.next, n - 1, key.(alg := ToInt32(v.value)))
      else if tag.value == -1 then
        var v :- IntAt(data, tag.next);
        EntriesAt(data, v.next, n - 1, key.(crv := ToInt32(v.value)))
      else if tag.value == -2 then
        var v :- BytesAt(data, tag.next);
        EntriesAt(data, v.next, n - 1, key.(x := v.value))
      else if tag.value == -3 then
        var v :- BytesAt(data, tag.next);
        EntriesAt(data, v.next, n - 1, key.(y := v.value))
      else
        var next :- SkipAt(data, tag.next);
        EntriesAt(data, next, n - 1, key)
  }

  function KeyIn(data: seq<byte>): Result<CoseKey> {
    var header :- MapHeaderAt(data, 0);
    EntriesAt(data, header.next, header.value, NO_KEY)
  }

  method ParseCoseEcKey(coseBytes: seq<byte>) returns (r: Result<CoseKey>)
    ensures r == KeyIn(coseBytes)
  {
    hide IntAt, BytesAt, SkipAt, MapHeaderAt, ToInt32;
    var reader := new CborReader(coseBytes);
    var mapLen :- reader.ReadMapHeader();
    var key := NO_KEY;
    for i := 0 to mapLen
      invariant reader.Valid() && fresh(reader) && reader.data == coseBytes
      invariant EntriesAt(coseBytes, reader.pos, mapLen - i, key) == KeyIn(coseBytes)
    {
      var tag :- reader.ReadInt();
      if tag == 1 {
        var v :- reader.ReadInt();
        key := key.(kty := ToInt32(v));
      } else if tag == 3 {
        var v :- reader.ReadInt();
        key := key.(alg := ToInt32(v));
      } else if tag == -1 {
        var v :- reader.ReadInt();
        key := key.(crv := ToInt32(v));
      } else if tag == -2 {
        var v :- reader.ReadBstr();
        key := key.(x := v);
      } else if tag == -3 {
        var v :- reader.ReadBstr();
        key := key.(y := v);
      } else {
        var _ :- reader.Skip();
      }
    }
    return Ok(key);
  }

  // ---- The map that is read back ----

  // An integer in any width: n, or -1 - n when negative.
  datatype Integer = Integer(negative: bool, w: Width, n: nat)
  {
    function Value(): int {
      if negative then -1 - n else n
    }

    function AsItem(): Item {
      Atom(if negative then 1 else 0, w, n)
    }
  }

  /** One entry of a COSE map: a typed value for the labels the parser knows, anything for the rest. */
  datatype Entry =
    | Number(tag: Integer, number: Integer)
    | Bytes(tag: Integer, w: Width, bytes: seq<byte>)
    | Other(tag: Integer, item: Item)
  {
    predicate Valid() {
      && Fits(tag.w, tag.n)
      && match this
         case Number(_, number) => tag.Value() in {1, 3, -1} && Fits(number.w, number.n)
         case Bytes(_, w, bytes) => tag.Value() in {-2, -3} && Fits(w, |bytes|)
         case Other(_, item) => tag.Value() !in {1, 3, -1, -2, -3} && item.Valid()
    }

    function ValueItem(): (item: Item)
      requires Valid()
      ensures item.Valid()
    {
      match this
      case Number(_, number) => number.AsItem()
      case Bytes(_, w, bytes) => Str(2, w, bytes)
      case Other(_, item) => item
    }

    function Encoded(): seq<byte>
      requires Valid()
    {
      tag.AsItem().Encoded() + ValueItem().Encoded()
    }

    /** The key after this entry. */
    function Into(key: CoseKey): CoseKey {
      match this
      case Number(_, number) =>
        if tag.Value() == 1 then key.(kty := ToInt32(number.Value()))
        else if tag.Value() == 3 then key.(alg := ToInt32(number.Value()))
        else key.(crv := ToInt32(number.Value()))
      case Bytes(_, _, bytes) => if tag.Value() == -2 then key.(x := bytes) else key.(y := bytes)
      case Other(_, _) => key
    }
  }

  ghost predicate AllEntriesValid(entries: seq<Entry>) {
    forall i :: 0 <= i < |entries| ==> entries[i].Valid()
  }

  function EncodedEntries(entries: seq<Entry>): seq<byte>
    requires forall i :: 0 <= i < |entries| ==> entries[i].Valid()
  {
    if entries == [] then [] else entries[0].Encoded() + EncodedEntries(entries[1..])
  }

  function IntoAll(key: CoseKey, entries: seq<Entry>): CoseKey
    decreases |entries|
  {
    if entries == [] then key else IntoAll(entries[0].Into(key), entries[1..])
  }

  function EncodedKey(w: Width, entries: seq<Entry>): seq<byte>
    requires Fits(w, |entries|) && forall i :: 0 <= i < |entries| ==> entries[i].Valid()
  {
    HeadBytes(5, w, |entries|) + EncodedEntries(entries)
  }

  lemma IntInverse(data: seq<byte>, pos: nat, v: Integer)
    requires Fits(v.w, v.n) && At(data, pos, v.AsItem().Encoded())
    ensures IntAt(data, pos) == Ok(Read(v.Value(), pos + |v.AsItem().Encoded()|))
  {
    hide At, HeadBytes, HeadAt, Fits;
    HeadInverse(data, pos, if v.negative then 1 else 0, v.w, v.n);
  }

  /** A head read with the type checked first. */
  lemma HeadParts(data: seq<byte>, pos: nat)
    requires HeadAt(data, pos).Ok?
    ensures var first := ByteAt(data, pos);
            && first.Ok? && HeadAt(data, pos).value.value.major == first.value.value / 32
            && ArgumentAt(data, first.value.next, first.value.value % 32)
               == Ok(Read(HeadAt(data, pos).value.value.argument, HeadAt(data, pos).value.next))
  {
    hide ArgumentAt;
  }

  lemma BytesInverse(data: seq<byte>, pos: nat, w: Width, bytes: seq<byte>)
    requires Fits(w, |bytes|) && At(data, pos, Str(2, w, bytes).Encoded())
    ensures BytesAt(data, pos) == Ok(Read(bytes, pos + |Str(2, w, bytes).Encoded()|))
  {
    hide At, HeadBytes, HeadAt, Fits, ArgumentAt;
    AtSplit(data, pos, HeadBytes(2, w, |bytes|), bytes);
    HeadInverse(data, pos, 2, w, |bytes|);
    HeadParts(data, pos);
    AtInside(data, pos + |HeadBytes(2, w, |bytes|)|, bytes);
  }

  lemma MapHeaderInverse(data: seq<byte>, w: Width, n: nat)
    requires Fits(w, n) && At(data, 0, HeadBytes(5, w, n))
    ensures MapHeaderAt(data, 0) == Ok(Read(n, |HeadBytes(5, w, n)|))
  {
    hide At, HeadBytes, HeadAt, Fits, ArgumentAt;
    HeadInverse(data, 0, 5, w, n);
    HeadParts(data, 0);
  }

  lemma {:induction false} EntriesInverse(data: seq<byte>, pos: nat, entries: seq<Entry>, key: CoseKey)
    requires AllEntriesValid(entries) && At(data, pos, EncodedEntries(entries))
    ensures EntriesAt(data, pos, |entries|, key) == Ok(IntoAll(key, entries))
    decreases |entries|
  {
    hide At, Item.Encoded, IntAt, BytesAt, SkipAt, ToInt32, Fits;
    if entries != [] {
      var e := entries[0];
      var tag, value := e.tag.AsItem().Encoded(), e.ValueItem().Encoded();
      AtSplit(data, pos, e.Encoded(), EncodedEntries(entries[1..]));
      AtSplit(data, pos, tag, value);
      IntInverse(data, pos, e.tag);
      match e {
        case Number(_, number) => IntInverse(data, pos + |tag|, number);
        case Bytes(_, w, bytes) => BytesInverse(data, pos + |tag|, w, bytes);
        case Other(_, item) => SkipInverse(data, pos + |tag|, item);
      }
      assert pos + |tag| + |value| == pos + |e.Encoded()|;
      EntriesInverse(data, pos + |e.Encoded()|, entries[1..], e.Into(key));
    }
  }

  /** An encoded key is read back entry by entry, and whatever follows it is left alone. */
  lemma KeyInverse(w: Width, entries: seq<Entry>, trailing: seq<byte>)
    requires AllEntriesValid(entries) && Fits(w, |entries|)
    ensures KeyIn(EncodedKey(w, entries) + trailing) == Ok(IntoAll(NO_KEY, entries))
  {
    hide At, HeadBytes, Fits, IntoAll, EncodedEntries, EntriesAt, MapHeaderAt;
    var data, header := EncodedKey(w, entries) + trailing, HeadBytes(5, w, |entries|);
    AtStart(EncodedKey(w, entries), trailing);
    AtSplit(data, 0, header, EncodedEntries(entries));
    MapHeaderInverse(data, w, |entries|);
    EntriesInverse(data, |header|, entries, NO_KEY);
  }

  /** The value of `entries` under `label` is stated once, somewhere. */
  ghost predicate OnlyNumber(entries: seq<Entry>, tag: int, v: int) {
    exists i :: 0 <= i < |entries| && entries[i].Number? && entries[i].tag.Value() == tag
      && entries[i].number.Value() == v && forall j :: 0 <= j < |entries| && j != i ==> entries[j].tag.Value() != tag
  }

  ghost predicate OnlyBytes(entries: seq<Entry>, tag: int, v: seq<byte>) {
    exists i :: 0 <= i < |entries| && entries[i].Bytes? && entries[i].tag.Value() == tag
      && entries[i].bytes == v && forall j :: 0 <= j < |entries| && j != i ==> entries[j].tag.Value() != tag
  }

  ghost predicate NoLabel(entries: seq<Entry>, tag: int) {
    forall i :: 0 <= i < |entries| ==> entries[i].tag.Value() != tag
  }

  /** An entry changes only the field of its own label. */
  lemma {:induction false} Untouched(key: CoseKey, entries: seq<Entry>)
    requires AllEntriesValid(entries)
    ensures NoLabel(entries, 1) ==> IntoAll(key, entries).kty == key.kty
    ensures NoLabel(entries, 3) ==> IntoAll(key, entries).alg == key.alg
    ensures NoLabel(entries, -1) ==> IntoAll(key, entries).crv == key.crv
    ensures NoLabel(entries, -2) ==> IntoAll(key, entries).x == key.x
    ensures NoLabel(entries, -3) ==> IntoAll(key, entries).y == key.y
    decreases |entries|
  {
    hide ToInt32, Fits, Item.Valid, Integer.Value;
    if entries != [] {
      Untouched(entries[0].Into(key), entries[1..]);
    }
  }

  lemma {:induction false} IntoAppended(key: CoseKey, a: seq<Entry>, b: seq<Entry>)
    ensures IntoAll(key, a + b) == IntoAll(IntoAll(key, a), b)
    decreases |a|
  {
    hide Entry.Into;
    if a == [] {
      assert a + b == b;
    } else {
      IntoAppended(a[0].Into(key), a[1..], b);
      assert (a + b)[1..] == a[1..] + b && (a + b)[0] == a[0];
    }
  }

  lemma IntoAt(key: CoseKey, entries: seq<Entry>, i: nat) returns (before: CoseKey, rest: seq<Entry>)
    requires i < |entries|
    ensures rest == entries[i + 1..] && IntoAll(key, entries) == IntoAll(entries[i].Into(before), rest)
  {
    hide Entry.Into;
    before, rest := IntoAll(key, entries[..i]), entries[i + 1..];
    assert entries == entries[..i] + entries[i..];
    IntoAppended(key, entries[..i], entries[i..]);
    assert entries[i..][1..] == rest;
  }

  lemma NumberFound(key: CoseKey, entries: seq<Entry>, tag: int, v: int)
    requires AllEntriesValid(entries) && OnlyNumber(entries, tag, v)
    ensures tag == 1 ==> IntoAll(key, entries).kty == ToInt32(v)
    ensures tag == 3 ==> IntoAll(key, entries).alg == ToInt32(v)
    ensures tag == -1 ==> IntoAll(key, entries).crv == ToInt32(v)
  {
    hide ToInt32, Fits, Item.Valid, Integer.Value, IntoAll;
    var i: nat :| i < |entries| && entries[i].Number? && entries[i].tag.Value() == tag
      && entries[i].number.Value() == v && forall j :: 0 <= j < |entries| && j != i ==> entries[j].tag.Value() != tag;
    var before, rest := IntoAt(key, entries, i);
    Untouched(entries[i].Into(before), rest);
    forall j | 0 <= j < |rest| ensures rest[j].tag.Value() != tag {
      assert rest[j] == entries[i + 1 + j];
    }
  }

  lemma BytesFound(key: CoseKey, entries: seq<Entry>, tag: int, v: seq<byte>)
    requires AllEntriesValid(entries) && OnlyBytes(entries, tag, v)
    ensures tag == -2 ==> IntoAll(key, entries).x == v
    ensures tag == -3 ==> IntoAll(key, entries).y == v
  {
    hide ToInt32, Fits, Item.Valid, Integer.Value, IntoAll;
    var i: nat :| i < |entries| && entries[i].Bytes? && entries[i].tag.Value() == tag
      && entries[i].bytes == v && forall j :: 0 <= j < |entries| && j != i ==> entries[j].tag.Value() != tag;
    var before, rest := IntoAt(key, entries, i);
    Untouched(entries[i].Into(before), rest);
    forall j | 0 <= j < |rest| ensures rest[j].tag.Value() != tag {
      assert rest[j] == entries[i + 1 + j];
    }
  }

  /** What is not stated is 0 or empty. */
  ghost predicate StatesNumber(entries: seq<Entry>, tag: int, v: int) {
    OnlyNumber(entries, tag, v) || (NoLabel(entries, tag) && v == 0)
  }

  ghost predicate StatesBytes(entries: seq<Entry>, tag: int, v: seq<byte>) {
    OnlyBytes(entries, tag, v) || (NoLabel(entries, tag) && v == [])
  }

  ghost predicate StatesKey(entries: seq<Entry>, key: CoseKey) {
    && StatesNumber(entries, 1, key.kty) && StatesNumber(entries, 3, key.alg) && StatesNumber(entries, -1, key.crv)
    && StatesBytes(entries, -2, key.x) && StatesBytes(entries, -3, key.y)
  }

  lemma NumberStated(entries: seq<Entry>, tag: int, v: int)
    requires AllEntriesValid(entries) && StatesNumber(entries, tag, v) && -0x8000_0000 <= v < 0x8000_0000
    ensures tag == 1 ==> IntoAll(NO_KEY, entries).kty == v
    ensures tag == 3 ==> IntoAll(NO_KEY, entries).alg == v
    ensures tag == -1 ==> IntoAll(NO_KEY, entries).crv == v
  {
    hide IntoAll, OnlyNumber, AllEntriesValid, NoLabel;
    Untouched(NO_KEY, entries);
    if OnlyNumber(entries, tag, v) {
      NumberFound(NO_KEY, entries, tag, v);
    }
  }

  lemma BytesStated(entries: seq<Entry>, tag: int, v: seq<byte>)
    requires AllEntriesValid(entries) && StatesBytes(entries, tag, v)
    ensures tag == -2 ==> IntoAll(NO_KEY, entries).x == v
    ensures tag == -3 ==> IntoAll(NO_KEY, entries).y == v
  {
    hide IntoAll, OnlyBytes, AllEntriesValid, NoLabel;
    Untouched(NO_KEY, entries);
    if OnlyBytes(entries, tag, v) {
      BytesFound(NO_KEY, entries, tag, v);
    }
  }

  predicate IntKey(key: CoseKey) {
    && -0x8000_0000 <= key.kty < 0x8000_0000 && -0x8000_0000 <= key.alg < 0x8000_0000
    && -0x8000_0000 <= key.crv < 0x8000_0000
  }

  /** kty, alg, crv, x and y come back from any order of entries, any widths, any further entries and
      any bytes behind the key; what is missing is 0 or empty. */
  lemma KeyRecovered(w: Width, entries: seq<Entry>, key: CoseKey, trailing: seq<byte>)
    requires AllEntriesValid(entries) && Fits(w, |entries|) && StatesKey(entries, key) && IntKey(key)
    ensures KeyIn(EncodedKey(w, entries) + trailing) == Ok(key)
  {
    hide Fits, IntoAll, StatesNumber, StatesBytes, KeyIn, EncodedKey, AllEntriesValid;
    KeyInverse(w, entries, trailing);
    NumberStated(entries, 1, key.kty);
    NumberStated(entries, 3, key.alg);
    NumberStated(entries, -1, key.crv);
    BytesStated(entries, -2, key.x);
    BytesStated(entries, -3, key.y);
  }

  // ---- parse_auth_data ----

  datatype AuthDataParsed = AuthDataParsed(
    rpIdHash: seq<byte>, flags: byte, signCount: nat, hasAttestedCredential: bool,
    credentialId: string, publicKeyXy: seq<byte>)

  const TOO_SHORT := "auth data too short"
  const NOT_ES256 := "unsupported COSE key"

  /** flags & 0x40. */
  predicate HasAttested(flags: byte) {
    flags / 0x40 % 2 == 1
  }

  function CredentialText(id: seq<byte>): string {
    Pow2Of8();
    UrlText(Encode(6, id))
  }

  function Attested(data: seq<byte>, plain: AuthDataParsed): Result<AuthDataParsed>
    requires |data| >= 37
  {
    if |data| < 55 then Err(TOO_SHORT)
    else
      var idLen := Two(data[53], data[54]);
      if |data| < 55 + idLen then Err(TOO_SHORT)
      else
        var cose :- KeyIn(data[55 + idLen..]);
        if cose.kty != 2 || cose.alg != -7 || cose.crv != 1 || |cose.x| != 32 || |cose.y| != 32 then Err(NOT_ES256)
        else Ok(plain.(hasAttestedCredential := true, credentialId := CredentialText(data[55..55 + idLen]),
                       publicKeyXy := cose.x + cose.y))
  }

  function AuthDataIn(data: seq<byte>): Result<AuthDataParsed> {
    if |data| < 37 then Err(TOO_SHORT)
    else
      var plain := AuthDataParsed(data[0..32], data[32], Four(data[33], data[34], data[35], data[36]), false, "", []);
      if HasAttested(data[32]) then Attested(data, plain) else Ok(plain)
  }

  method ParseAuthData(authData: seq<byte>) returns (r: Result<AuthDataParsed>)
    ensures r == AuthDataIn(authData)
  {
    hide KeyIn, UrlText, Encode;
    if |authData| < 37 {
      return Err(TOO_SHORT);
    }
    var rpIdHash, flags := authData[..32], authData[32];
    var signCount := Four(authData[33], authData[34], authData[35], authData[36]);
    var out := AuthDataParsed(rpIdHash, flags, signCount, false, "", []);
    if HasAttested(flags) {
      out := out.(hasAttestedCredential := true);
      if |authData| < 55 {
        return Err(TOO_SHORT);
      }
      var credIdLen := Two(authData[53], authData[54]);
      var credIdStart := 55;
      if |authData| < credIdStart + credIdLen {
        return Err(TOO_SHORT);
      }
      var id := EncodeBase64Url(authData[credIdStart..credIdStart + credIdLen]);
      out := out.(credentialId := id);
      var coseStart := credIdStart + credIdLen;
      var coseBytes := authData[coseStart..];
      var cose :- ParseCoseEcKey(coseBytes);
      if cose.kty != 2 || cose.alg != -7 {
        return Err(NOT_ES256);
      }
      if cose.crv != 1 {
        return Err(NOT_ES256);
      }
      if |cose.x| != 32 || |cose.y| != 32 {
        return Err(NOT_ES256);
      }
      out := out.(publicKeyXy := cose.x + cose.y);
    }
    return Ok(out);
  }

  // ---- The layout that is read back ----

  function FourBytesOf(v: nat): (bytes: seq<byte>)
    requires v < 0x1_0000_0000
    ensures |bytes| == 4
  {
    [v / 0x100_0000, v / 0x1_0000 % 0x100, v / 0x100 % 0x100, v % 0x100]
  }

  function TwoBytesOf(v: nat): (bytes: seq<byte>)
    requires v < 0x1_0000
    ensures |bytes| == 2
  {
    [v / 0x100, v % 0x100]
  }

  /** rpIdHash (32) | flags (1) | signCount (4) | rest. */
  function Layout(rpIdHash: seq<byte>, flags: byte, signCount: nat, rest: seq<byte>): seq<byte>
    requires |rpIdHash| == 32 && signCount < 0x1_0000_0000
  {
    rpIdHash + ([flags] + (FourBytesOf(signCount) + rest))
  }

  /** aaguid (16) | length (2) | credential id | COSE key and extensions. */
  function AttestedLayout(aaguid: seq<byte>, id: seq<byte>, cose: seq<byte>): seq<byte>
    requires |aaguid| == 16 && |id| < 0x1_0000
  {
    aaguid + (TwoBytesOf(|id|) + (id + cose))
  }

  lemma LayoutFields(rpIdHash: seq<byte>, flags: byte, signCount: nat, rest: seq<byte>)
    requires |rpIdHash| == 32 && signCount < 0x1_0000_0000
    ensures var data := Layout(rpIdHash, flags, signCount, rest);
            && |data| == 37 + |rest| && data[0..32] == rpIdHash && data[32] == flags
            && Four(data[33], data[34], data[35], data[36]) == signCount && data[37..] == rest
  {
    var data := Layout(rpIdHash, flags, signCount, rest);
    FourOfNumber(signCount);
    assert data[32..] == [flags] + (FourBytesOf(signCount) + rest);
    assert data[33..] == FourBytesOf(signCount) + rest;
    assert data[33] == data[33..][0] && data[34] == data[33..][1] && data[35] == data[33..][2] && data[36] == data[33..][3];
  }

  lemma AttestedFields(aaguid: seq<byte>, id: seq<byte>, cose: seq<byte>)
    requires |aaguid| == 16 && |id| < 0x1_0000
    ensures var rest := AttestedLayout(aaguid, id, cose);
            && |rest| == 18 + |id| + |cose| && Two(rest[16], rest[17]) == |id|
            && rest[18..18 + |id|] == id && rest[18 + |id|..] == cose
  {
    var rest := AttestedLayout(aaguid, id, cose);
    assert rest[16..] == TwoBytesOf(|id|) + (id + cose);
    assert rest[16] == rest[16..][0] && rest[17] == rest[16..][1];
    assert rest[18..] == id + cose;
    assert rest[18..18 + |id|] == rest[18..][..|id|] == id;
  }

  /** The AT bit is 0x40, between the six lower bits and ED (0x80). */
  lemma AttestedBit(low: nat, at: nat, ed: nat)
    requires low < 0x40 && at <= 1 && ed <= 1
    ensures HasAttested(low + 0x40 * at + 0x80 * ed) <==> at == 1
  {
  }

  /** Without the AT bit only the fixed 37 bytes are read, whatever the other flags. */
  lemma AssertionRecovered(rpIdHash: seq<byte>, low: nat, ed: nat, signCount: nat, rest: seq<byte>)
    requires |rpIdHash| == 32 && signCount < 0x1_0000_0000 && low < 0x40 && ed <= 1
    ensures var flags := low + 0x80 * ed;
            AuthDataIn(Layout(rpIdHash, flags, signCount, rest)) == Ok(AuthDataParsed(rpIdHash, flags, signCount, false, "", []))
  {
    hide Attested;
    AttestedBit(low, 0, ed);
    LayoutFields(rpIdHash, low + 0x80 * ed, signCount, rest);
  }

  /** With it, the key is accepted exactly when it is an ES256 key with coordinates of 32 bytes, and then the
      credential id and the public key are recovered too, whatever the aaguid, the order and widths of the
      key's entries, and the extensions behind the key. */
  lemma RegistrationRecovered(rpIdHash: seq<byte>, low: nat, ed: nat, signCount: nat, aaguid: seq<byte>, id: seq<byte>,
                              w: Width, entries: seq<Entry>, key: CoseKey, extensions: seq<byte>)
    requires |rpIdHash| == 32 && signCount < 0x1_0000_0000 && low < 0x40 && ed <= 1
    requires |aaguid| == 16 && |id| < 0x1_0000
    requires AllEntriesValid(entries) && Fits(w, |entries|) && StatesKey(entries, key) && IntKey(key)
    ensures var flags := low + 0x40 + 0x80 * ed;
            var r := AuthDataIn(Layout(rpIdHash, flags, signCount, AttestedLayout(aaguid, id, EncodedKey(w, entries) + extensions)));
            && (r.Ok? <==> key.kty == 2 && key.alg == -7 && key.crv == 1 && |key.x| == 32 && |key.y| == 32)
            && (r.Ok? ==>
                  && r.value.rpIdHash == rpIdHash && r.value.flags == flags && r.value.signCount == signCount
                  && r.value.hasAttestedCredential && r.value.publicKeyXy == key.x + key.y
                  && Decode(6, Values(r.value.credentialId)) == id)
  {
    hide KeyIn, EncodedKey, CredentialText, StatesKey, Fits, AttestedLayout, Layout;
    var flags := low + 0x40 + 0x80 * ed;
    var cose := EncodedKey(w, entries) + extensions;
    var rest := AttestedLayout(aaguid, id, cose);
    var data := Layout(rpIdHash, flags, signCount, rest);
    AttestedBit(low, 1, ed);
    LayoutFields(rpIdHash, flags, signCount, rest);
    AttestedFields(aaguid, id, cose);
    KeyRecovered(w, entries, key, extensions);
    assert data[53] == data[37..][16] && data[54] == data[37..][17];
    assert data[55..55 + |id|] == data[37..][18..18 + |id|];
    assert data[55 + |id|..] == data[37..][18 + |id|..];
    CredentialReads(id);
  }

  lemma CredentialReads(id: seq<byte>)
    ensures Decode(6, Values(CredentialText(id))) == id
  {
    TextRoundTrip(id);
  }

  /** Data that end before the credential id does are refused. */
  lemma ShortIsRefused(rpIdHash: seq<byte>, low: nat, ed: nat, signCount: nat, aaguid: seq<byte>, id: seq<byte>,
                       cose: seq<byte>, k: nat)
    requires |rpIdHash| == 32 && signCount < 0x1_0000_0000 && low < 0x40 && ed <= 1
    requires |aaguid| == 16 && |id| < 0x1_0000 && k < 55 + |id|
    ensures var data := Layout(rpIdHash, low + 0x40 + 0x80 * ed, signCount, AttestedLayout(aaguid, id, cose));
            k <= |data| && AuthDataIn(data[..k]).Err?
  {
    hide AttestedLayout, Layout, KeyIn;
    var flags := low + 0x40 + 0x80 * ed;
    var rest := AttestedLayout(aaguid, id, cose);
    var data := Layout(rpIdHash, flags, signCount, rest);
    AttestedBit(low, 1, ed);
    LayoutFields(rpIdHash, flags, signCount, rest);
    AttestedFields(aaguid, id, cose);
    assert data[53] == data[37..][16] && data[54] == data[37..][17];
    assert k >= 37 ==> data[..k][32] == flags;
    assert k >= 55 ==> data[..k][53] == data[53] && data[..k][54] == data[54];
  }
}
