/** The CBOR reader behind WebAuthn: what it reads at each position, its in-place form, and the
    encoding (section 3 of RFC 8949) that it inverts. */
module Cbor {
  import opened Arithmetic
  import opened Bytes
  import opened Options

  const END_OF_DATA := "unexpected end of data"
  const UNSUPPORTED := "unsupported additional value"
  const WRONG_TYPE := "unexpected major type"

  // ---- What stands at a position ----

  datatype Read<+T> = Read(value: T, next: nat)

  function ByteAt(data: seq<byte>, pos: nat): (r: Result<Read<byte>>)
    ensures r.Ok? ==> pos < r.value.next <= |data|
  {
    if pos < |data| then Ok(Read(data[pos], pos + 1)) else Err(END_OF_DATA)
  }

  /** Big-endian values of two and four bytes. */
  function Two(a: int, b: int): int {
    a * 0x100 + b
  }

  function Four(a: int, b: int, c: int, d: int): int {
    a * 0x100_0000 + b * 0x1_0000 + c * 0x100 + d
  }

  /** read_additional. */
  function ArgumentAt(data: seq<byte>, pos: nat, additional: int): (r: Result<Read<nat>>)
    requires pos <= |data| && 0 <= additional < 32
    ensures r.Ok? ==> pos <= r.value.next <= |data|
  {
    if additional < 24 then Ok(Read(additional, pos))
    else if additional == 24 then
      if pos + 1 <= |data| then Ok(Read(data[pos], pos + 1)) else Err(END_OF_DATA)
    else if additional == 25 then
      if pos + 2 <= |data| then Ok(Read(Two(data[pos], data[pos + 1]), pos + 2)) else Err(END_OF_DATA)
    else if additional == 26 then
      if pos + 4 <= |data| then
        Ok(Read(Four(data[pos], data[pos + 1], data[pos + 2], data[pos + 3]), pos + 4))
      else Err(END_OF_DATA)
    else Err(UNSUPPORTED)
  }

  // The first byte and the argument of an item.
  datatype Head = Head(major: int, argument: nat)

  function HeadAt(data: seq<byte>, pos: nat): (r: Result<Read<Head>>)
    ensures r.Ok? ==> pos < r.value.next <= |data|
  {
    var first :- ByteAt(data, pos);
    var arg :- ArgumentAt(data, first.next, first.value % 32);
    Ok(Read(Head(first.value / 32, arg.value), arg.next))
  }

  /** read_int: the type is checked after the argument has been read. */
  function IntAt(data: seq<byte>, pos: nat): (r: Result<Read<int>>)
    ensures r.Ok? ==> pos < r.value.next <= |data|
  {
    var head :- HeadAt(data, pos);
    if head.value.major == 0 then Ok(Read(head.value.argument, head.next))
    else if head.value.major == 1 then Ok(Read(-1 - head.value.argument, head.next))
    else Err(WRONG_TYPE)
  }

  /** read_bstr: the type is checked first. */
  function BytesAt(data: seq<byte>, pos: nat): (r: Result<Read<seq<byte>>>)
    ensures r.Ok? ==> pos < r.value.next <= |data|
  {
    var first :- ByteAt(data, pos);
    if first.value / 32 != 2 then Err(WRONG_TYPE)
    else
      var arg :- ArgumentAt(data, first.next, first.value % 32);
      if arg.next + arg.value <= |data| then Ok(Read(data[arg.next..arg.next + arg.value], arg.next + arg.value))
      else Err(END_OF_DATA)
  }

  function MapHeaderAt(data: seq<byte>, pos: nat): (r: Result<Read<nat>>)
    ensures r.Ok? ==> pos < r.value.next <= |data|
  {
    var first :- ByteAt(data, pos);
    if first.value / 32 != 5 then Err(WRONG_TYPE)
    else ArgumentAt(data, first.next, first.value % 32)
  }

  /** skip: the position behind one item of any supported type. */
  function SkipAt(data: seq<byte>, pos: nat): (r: Result<nat>)
    ensures r.Ok? ==> pos < r.value <= |data|
    decreases if pos <= |data| then |data| - pos else 0, 0
  {
    var head :- HeadAt(data, pos);
    var major, arg, next := head.value.major, head.value.argument, head.next;
    if major == 0 || major == 1 || major == 7 then Ok(next)
    else if major == 2 || major == 3 then
      if next + arg <= |data| then Ok(next + arg) else Err(END_OF_DATA)
    else if major == 4 then SkipManyAt(data, next, arg)
    else if major == 5 then SkipManyAt(data, next, 2 * arg)
    else Err(WRONG_TYPE)
  }

  function SkipManyAt(data: seq<byte>, pos: nat, n: nat): (r: Result<nat>)
    requires pos <= |data|
    ensures r.Ok? ==> pos <= r.value <= |data|
    decreases |data| - pos, 1
  {
    if n == 0 then Ok(pos)
    else
      var next :- SkipAt(data, pos);
      SkipManyAt(data, next, n - 1)
  }

  // ---- The reader ----

  /** A reader stops being used after an error, so the position is promised on success only; it never
      leaves the data. */
  class CborReader {
    const data: seq<byte>
    var pos: nat

    predicate Valid()
      reads this
    {
      pos <= |data|
    }

    constructor (bytes: seq<byte>)
      ensures data == bytes && pos == 0 && Valid()
    {
      data := bytes;
      pos := 0;
    }

    method ReadU8() returns (r: Result<byte>)
      requires Valid()
      modifies this
      ensures Valid() && pos >= old(pos)
      ensures match ByteAt(data, old(pos)) { case Ok(read) => r == Ok(read.value) && pos == read.next case Err(e) => r == Err(e) }
    {
      if pos + 1 > |data| {
        return Err(END_OF_DATA);
      }
      r := Ok(data[pos]);
      pos := pos + 1;
    }

    method ReadAdditional(additional: int) returns (r: Result<nat>)
      requires Valid() && 0 <= additional < 32
      modifies this
      ensures Valid() && pos >= old(pos)
      ensures match ArgumentAt(data, old(pos), additional)
              { case Ok(read) => r == Ok(read.value) && pos == read.next case Err(e) => r == Err(e) }
    {
      if additional < 24 {
        return Ok(additional);
      }
      if additional == 24 {
        r := ReadU8();
        return r;
      }
      if additional == 25 {
        if pos + 2 > |data| {
          return Err(END_OF_DATA);
        }
        var v := Two(data[pos], data[pos + 1]);
        pos := pos + 2;
        return Ok(v);
      }
      if additional == 26 {
        if pos + 4 > |data| {
          return Err(END_OF_DATA);
        }
        var v := Four(data[pos], data[pos + 1], data[pos + 2], data[pos + 3]);
        pos := pos + 4;
        return Ok(v);
      }
      return Err(UNSUPPORTED);
    }

    method ReadInt() returns (r: Result<int>)
      requires Valid()
      modifies this
      ensures Valid() && pos >= old(pos)
      ensures match IntAt(data, old(pos)) { case Ok(read) => r == Ok(read.value) && pos == read.next case Err(e) => r == Err(e) }
    {
      var b :- ReadU8();
      var major, additional := b / 32, b % 32;
      var arg :- ReadAdditional(additional);
      var val: int := arg;
      if major == 0 {
        return Ok(val);
      }
      if major == 1 {
        return Ok(-1 - val);
      }
      return Err(WRONG_TYPE);
    }

    method ReadBstr() returns (r: Result<seq<byte>>)
      requires Valid()
      modifies this
      ensures Valid() && pos >= old(pos)
      ensures match BytesAt(data, old(pos)) { case Ok(read) => r == Ok(read.value) && pos == read.next case Err(e) => r == Err(e) }
    {
      var b :- ReadU8();
      var major, additional := b / 32, b % 32;
      if major != 2 {
        return Err(WRONG_TYPE);
      }
      var len :- ReadAdditional(additional);
      if pos + len > |data| {
        return Err(END_OF_DATA);
      }
      r := Ok(data[pos..pos + len]);
      pos := pos + len;
    }

    method ReadMapHeader() returns (r: Result<nat>)
      requires Valid()
      modifies this
      ensures Valid() && pos >= old(pos)
      ensures match MapHeaderAt(data, old(pos)) { case Ok(read) => r == Ok(read.value) && pos == read.next case Err(e) => r == Err(e) }
    {
      var b :- ReadU8();
      var major, additional := b / 32, b % 32;
      if major != 5 {
        return Err(WRONG_TYPE);
      }
      r := ReadAdditional(additional);
    }

    /** Every call ends: each item read is at least one byte of what remains. */
    method Skip() returns (r: Result<()>)
      requires Valid()
      modifies this
      ensures Valid() && pos >= old(pos)
      ensures match SkipAt(data, old(pos)) { case Ok(next) => r == Ok(()) && pos == next case Err(e) => r == Err(e) }
      decreases |data| - pos, 0
    {
      ghost var start := pos;
      var b :- ReadU8();
      var major, additional := b / 32, b % 32;
      var val :- ReadAdditional(additional);
      assert HeadAt(data, start) == Ok(Read(Head(major, val), pos));
      if major == 0 || major == 1 || major == 7 {
        return Ok(());
      }
      if major == 2 || major == 3 {
        if pos + val > |data| {
          return Err(END_OF_DATA);
        }
        pos := pos + val;
        return Ok(());
      }
      if major == 4 {
        r := SkipItems(val);
        return r;
      }
      if major == 5 {
        r := SkipItems(val * 2);
        return r;
      }
      return Err(WRONG_TYPE);
    }

    /** The counted loop of arrays and maps. */
    method SkipItems(n: nat) returns (r: Result<()>)
      requires Valid()
      modifies this
      ensures Valid() && pos >= old(pos)
      ensures match SkipManyAt(data, old(pos), n) { case Ok(next) => r == Ok(()) && pos == next case Err(e) => r == Err(e) }
      decreases |data| - pos, 1
    {
      for i := 0 to n
        invariant Valid() && pos >= old(pos)
        invariant SkipManyAt(data, old(pos), n) == SkipManyAt(data, pos, n - i)
      {
        var _ :- Skip();
      }
      return Ok(());
    }
  }

  // ---- The encoding ----

  // How many bytes carry the argument; a small one also fits a wider form.
  datatype Width = Inline | OneByte | TwoBytes | FourBytes

  predicate Fits(w: Width, arg: nat) {
    match w
    case Inline => arg < 24
    case OneByte => arg < 0x100
    case TwoBytes => arg < 0x1_0000
    case FourBytes => arg < 0x1_0000_0000
  }

  function HeadBytes(major: int, w: Width, arg: nat): (bytes: seq<byte>)
    requires 0 <= major < 8 && Fits(w, arg)
    ensures |bytes| >= 1
  {
    match w
    case Inline => [major * 32 + arg]
    case OneByte => [major * 32 + 24, arg]
    case TwoBytes => [major * 32 + 25, arg / 0x100, arg % 0x100]
    case FourBytes => [major * 32 + 26, arg / 0x100_0000, arg / 0x1_0000 % 0x100, arg / 0x100 % 0x100, arg % 0x100]
  }

  /** An item of the supported types; a map lists its keys and values in turn. */
  datatype Item =
    | Atom(major: int, w: Width, arg: nat)
    | Str(major: int, w: Width, bytes: seq<byte>)
    | Arr(w: Width, items: seq<Item>)
    | Map(w: Width, items: seq<Item>)
  {
    predicate Valid() {
      match this
      case Atom(major, w, arg) => major in {0, 1, 7} && Fits(w, arg)
      case Str(major, w, bytes) => major in {2, 3} && Fits(w, |bytes|)
      case Arr(w, items) => Fits(w, |items|) && forall i :: 0 <= i < |items| ==> items[i].Valid()
      case Map(w, items) => |items| % 2 == 0 && Fits(w, |items| / 2) && forall i :: 0 <= i < |items| ==> items[i].Valid()
    }

    function Encoded(): (bytes: seq<byte>)
      requires Valid()
      ensures |bytes| >= 1
      decreases this, 1
    {
      match this
      case Atom(major, w, arg) => HeadBytes(major, w, arg)
      case Str(major, w, bytes) => HeadBytes(major, w, |bytes|) + bytes
      case Arr(w, items) => HeadBytes(4, w, |items|) + EncodedAll(items)
      case Map(w, items) => HeadBytes(5, w, |items| / 2) + EncodedAll(items)
    }
  }

  ghost predicate AllValid(items: seq<Item>) {
    forall i :: 0 <= i < |items| ==> items[i].Valid()
  }

  function EncodedAll(items: seq<Item>): seq<byte>
    requires forall i :: 0 <= i < |items| ==> items[i].Valid()
    decreases items, 0
  {
    if items == [] then [] else items[0].Encoded() + EncodedAll(items[1..])
  }

  lemma HeadInverse(data: seq<byte>, pos: nat, major: int, w: Width, arg: nat)
    requires 0 <= major < 8 && Fits(w, arg) && At(data, pos, HeadBytes(major, w, arg))
    ensures HeadAt(data, pos) == Ok(Read(Head(major, arg), pos + |HeadBytes(major, w, arg)|))
  {
    var bytes := HeadBytes(major, w, arg);
    forall i | 0 <= i < |bytes| ensures data[pos + i] == bytes[i] {
      assert data[pos + i] == data[pos..pos + |bytes|][i];
    }
    assert data[pos] / 32 == major;
    assert data[pos] % 32 == match w { case Inline => arg case OneByte => 24 case TwoBytes => 25 case FourBytes => 26 };
    if w.FourBytes? {
      FourOfNumber(arg);
      assert data[pos + 1 + 1] == bytes[2] && data[pos + 1 + 2] == bytes[3] && data[pos + 1 + 3] == bytes[4];
    }
  }

  lemma FourOfNumber(arg: nat)
    requires arg < 0x1_0000_0000
    ensures Four(arg / 0x100_0000, arg / 0x1_0000 % 0x100, arg / 0x100 % 0x100, arg % 0x100) == arg
  {
    var a, b, c := arg / 0x100, arg / 0x1_0000, arg / 0x100_0000;
    assert arg == a * 0x100 + arg % 0x100;
    assert a == b * 0x100 + a % 0x100;
    assert b == c * 0x100 + b % 0x100;
  }

  /** skip lands exactly behind any encoded item, whatever stands around it. */
  lemma {:induction false} SkipInverse(data: seq<byte>, pos: nat, item: Item)
    requires item.Valid() && At(data, pos, item.Encoded())
    ensures SkipAt(data, pos) == Ok(pos + |item.Encoded()|)
    decreases item, 1
  {
    hide At, HeadBytes, HeadAt, Fits;
    match item
    case Atom(major, w, arg) => HeadInverse(data, pos, major, w, arg);
    case Str(major, w, bytes) =>
      AtSplit(data, pos, HeadBytes(major, w, |bytes|), bytes);
      HeadInverse(data, pos, major, w, |bytes|);
      AtInside(data, pos + |HeadBytes(major, w, |bytes|)|, bytes);
    case Arr(w, items) =>
      AtSplit(data, pos, HeadBytes(4, w, |items|), EncodedAll(items));
      HeadInverse(data, pos, 4, w, |items|);
      SkipAllInverse(data, pos + |HeadBytes(4, w, |items|)|, items);
    case Map(w, items) =>
      AtSplit(data, pos, HeadBytes(5, w, |items| / 2), EncodedAll(items));
      HeadInverse(data, pos, 5, w, |items| / 2);
      SkipAllInverse(data, pos + |HeadBytes(5, w, |items| / 2)|, items);
  }

  lemma {:induction false} SkipAllInverse(data: seq<byte>, pos: nat, items: seq<Item>)
    requires AllValid(items) && At(data, pos, EncodedAll(items))
    ensures pos <= |data| && SkipManyAt(data, pos, |items|) == Ok(pos + |EncodedAll(items)|)
    decreases items, 0
  {
    hide At, Item.Encoded;
    AtInside(data, pos, EncodedAll(items));
    if items != [] {
      AtSplit(data, pos, items[0].Encoded(), EncodedAll(items[1..]));
      SkipInverse(data, pos, items[0]);
      SkipAllInverse(data, pos + |items[0].Encoded()|, items[1..]);
    }
  }

  /** And nothing else is skipped: a successful skip has passed over the encoding of some item. */
  lemma {:induction false} SkipSound(data: seq<byte>, pos: nat) returns (item: Item)
    requires SkipAt(data, pos).Ok?
    ensures item.Valid() && At(data, pos, item.Encoded())
    ensures SkipAt(data, pos) == Ok(pos + |item.Encoded()|)
    decreases if pos <= |data| then |data| - pos else 0, 0
  {
    hide At, HeadBytes, HeadAt, Fits;
    var head, w := HeadSound(data, pos);
    var major, arg, next := head.value.major, head.value.argument, head.next;
    if major == 0 || major == 1 || major == 7 {
      item := Atom(major, w, arg);
    } else if major == 2 || major == 3 {
      item := Str(major, w, data[next..next + arg]);
      AtHere(data, next, arg);
      AtSplit(data, pos, HeadBytes(major, w, arg), item.bytes);
    } else if major == 4 {
      var items := SkipAllSound(data, next, arg);
      item := Arr(w, items);
      AtSplit(data, pos, HeadBytes(4, w, arg), EncodedAll(items));
    } else {
      var items := SkipAllSound(data, next, 2 * arg);
      item := Map(w, items);
      AtSplit(data, pos, HeadBytes(5, w, arg), EncodedAll(items));
    }
  }

  lemma {:induction false} SkipAllSound(data: seq<byte>, pos: nat, n: nat) returns (items: seq<Item>)
    requires pos <= |data| && SkipManyAt(data, pos, n).Ok?
    ensures |items| == n && AllValid(items) && At(data, pos, EncodedAll(items))
    ensures SkipManyAt(data, pos, n) == Ok(pos + |EncodedAll(items)|)
    decreases |data| - pos, 1
  {
    hide At, Item.Encoded, SkipAt;
    items := [];
    if n == 0 {
      AtHere(data, pos, 0);
      assert data[pos..pos] == EncodedAll([]);
    } else {
      var item := SkipSound(data, pos);
      var next := pos + |item.Encoded()|;
      var rest := SkipAllSound(data, next, n - 1);
      items := [item] + rest;
      assert items[1..] == rest;
      AtSplit(data, pos, item.Encoded(), EncodedAll(rest));
    }
  }

  lemma HeadSound(data: seq<byte>, pos: nat) returns (head: Read<Head>, w: Width)
    requires HeadAt(data, pos).Ok?
    ensures HeadAt(data, pos) == Ok(head)
    ensures 0 <= head.value.major < 8 && Fits(w, head.value.argument)
    ensures var bytes := HeadBytes(head.value.major, w, head.value.argument);
            At(data, pos, bytes) && head.next == pos + |bytes|
  {
    head := HeadAt(data, pos).value;
    var first, arg := data[pos], head.value.argument;
    var additional := first % 32;
    assert first == first / 32 * 32 + additional;
    if additional < 24 {
      w := Inline;
      assert data[pos..pos + 1] == [data[pos]];
    } else if additional == 24 {
      w := OneByte;
      assert data[pos..pos + 2] == [data[pos], data[pos + 1]];
    } else if additional == 25 {
      w := TwoBytes;
      assert data[pos..pos + 3] == [data[pos], data[pos + 1], data[pos + 2]];
    } else {
      w := FourBytes;
      BytesOfFour(data[pos + 1], data[pos + 2], data[pos + 3], data[pos + 4]);
      SliceOfFive(data, pos);
    }
  }

  lemma SliceOfFive(data: seq<byte>, pos: nat)
    requires pos + 5 <= |data|
    ensures data[pos..pos + 5] == [data[pos], data[pos + 1], data[pos + 2], data[pos + 3], data[pos + 4]]
  {
  }

  lemma BytesOfFour(a: byte, b: byte, c: byte, d: byte)
    ensures var v := Four(a, b, c, d);
            v / 0x100_0000 == a && v / 0x1_0000 % 0x100 == b && v / 0x100 % 0x100 == c && v % 0x100 == d
  {
    var v := Four(a, b, c, d);
    QuotientOf(0x100, Four(0, a, b, c), d);
    QuotientOf(0x100, Two(a, b), c);
    QuotientOf(0x100, a, b);
    assert v / 0x1_0000 == v / 0x100 / 0x100 && v / 0x100_0000 == v / 0x100 / 0x100 / 0x100;
  }
}
