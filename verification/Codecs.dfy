// Ledger headers as bytes (src/rpc/RPCHelpers.cpp, ledgerInfoToBlob; src/backend/DBHelpers.h,
// deserializeHeader) and account cursors as text (src/rpc/RPC.h, AccountCursor::toString;
// src/rpc/RPCHelpers.cpp, parseAccountCursor).
module Codecs {
  import opened Wrappers
  import opened Sequences
  import opened Ledger
  import opened Digits
  import opened OwnerDirectory

  type Byte = b: nat | b < 256

  const UINT64_SPAN: int := 0x1_0000_0000_0000_0000
  const INT64_SPAN: int := 0x8000_0000_0000_0000

  // `drops` is a signed 64-bit amount.
  datatype Header = Header(
    number: nat, drops: int, parentHash: nat, txHash: nat, accountHash: nat, parentCloseTime: nat, closeTime: nat,
    closeTimeResolution: nat, closeFlags: nat, hash: nat)

  ghost predicate Fits(h: Header) {
    && h.number < Pow(256, 4) && -INT64_SPAN <= h.drops < INT64_SPAN
    && h.parentHash < Pow(256, 32) && h.txHash < Pow(256, 32) && h.accountHash < Pow(256, 32)
    && h.parentCloseTime < Pow(256, 4) && h.closeTime < Pow(256, 4)
    && h.closeTimeResolution < Pow(256, 1) && h.closeFlags < Pow(256, 1) && h.hash < Pow(256, 32)
  }

  function Unsigned64(n: int): nat {
    n % UINT64_SPAN
  }

  function Signed64(n: nat): int {
    if n % UINT64_SPAN >= INT64_SPAN then n % UINT64_SPAN - UINT64_SPAN else n % UINT64_SPAN
  }

  /* Packing numbers into fixed widths */

  // Each number in its width, big-endian; what does not fit is cut off.
  function Pack(values: seq<nat>, widths: seq<nat>): seq<nat>
    requires |values| == |widths|
  {
    if values == [] then [] else DigitsOf(256, values[0], widths[0]) + Pack(values[1..], widths[1..])
  }

  // What an iterator over the bytes yields, if there are enough.
  function Unpack(data: seq<nat>, widths: seq<nat>): Option<seq<nat>> {
    if widths == [] then Some([])
    else if |data| < widths[0] then None
    else
      match Unpack(data[widths[0]..], widths[1..])
      case None => None
      case Some(rest) => Some([ValueOf(256, data[..widths[0]])] + rest)
  }

  function Total(widths: seq<nat>): nat {
    if widths == [] then 0 else widths[0] + Total(widths[1..])
  }

  lemma UnpackFirst(first: seq<nat>, others: seq<nat>, widths: seq<nat>)
    requires widths != [] && |first| == widths[0]
    ensures Unpack(first + others, widths) ==
      match Unpack(others, widths[1..])
      case None => None
      case Some(rest) => Some([ValueOf(256, first)] + rest)
  {
    var data := first + others;
    assert data[..widths[0]] == first && data[widths[0]..] == others;
  }

  lemma {:induction false} UnpackPack(values: seq<nat>, widths: seq<nat>, rest: seq<nat>)
    requires |values| == |widths| && forall i | 0 <= i < |values| :: values[i] < Pow(256, widths[i])
    ensures Unpack(Pack(values, widths) + rest, widths) == Some(values)
  {
    if values != [] {
      var first, others := DigitsOf(256, values[0], widths[0]), Pack(values[1..], widths[1..]);
      Regroup(first, others, rest);
      UnpackFirst(first, others + rest, widths);
      ValueOfDigits(256, values[0], widths[0]);
      UnpackPack(values[1..], widths[1..], rest);
      assert values == [values[0]] + values[1..];
    }
  }

  lemma {:induction false} PackUnpack(data: seq<nat>, widths: seq<nat>)
    requires Within(256, data)
    ensures Unpack(data, widths).Some? <==> |data| >= Total(widths)
    ensures Unpack(data, widths).Some? ==>
      |Unpack(data, widths).value| == |widths| && Pack(Unpack(data, widths).value, widths) == data[..Total(widths)]
  {
    if widths != [] && |data| >= widths[0] {
      var first, others := data[..widths[0]], data[widths[0]..];
      PackUnpack(others, widths[1..]);
      DigitsOfValue(256, first);
      if Unpack(others, widths[1..]).Some? {
        assert Unpack(data, widths).value[1..] == Unpack(others, widths[1..]).value;
        assert data[..Total(widths)] == first + others[..Total(widths[1..])];
      }
    }
  }

  /* Headers */

  const WIDTHS: seq<nat> := [4, 8, 32, 32, 32, 4, 4, 1, 1, 32]
  const HEADER_SIZE: nat := 150

  function Values(h: Header): seq<nat> {
    [h.number, Unsigned64(h.drops), h.parentHash, h.txHash, h.accountHash, h.parentCloseTime, h.closeTime,
     h.closeTimeResolution, h.closeFlags, h.hash]
  }

  function HeaderOf(v: seq<nat>): Header
    requires |v| == |WIDTHS|
  {
    Header(v[0], Signed64(v[1]), v[2], v[3], v[4], v[5], v[6], v[7], v[8], v[9])
  }

  // The header's bytes, with or without its own hash at the end.
  function Encode(h: Header, includeHash: bool): seq<nat> {
    if includeHash then Pack(Values(h), WIDTHS) else Pack(Values(h)[..9], WIDTHS[..9])
  }

  datatype Error = NotEnoughData

  function At(data: seq<nat>, from: nat, width: nat): nat
    requires from + width <= |data|
  {
    ValueOf(256, data[from..from + width])
  }

  function Decode(data: seq<nat>): Result<Header, Error> {
    if |data| < HEADER_SIZE then
      Err(NotEnoughData)
    else
      Ok(Header(
           At(data, 0, 4), Signed64(At(data, 4, 8)), At(data, 12, 32), At(data, 44, 32), At(data, 76, 32),
           At(data, 108, 4), At(data, 112, 4), At(data, 116, 1), At(data, 117, 1), At(data, 118, 32)))
  }

  class Serializer {
    var data: seq<nat>

    constructor ()
      ensures data == []
    {
      data := [];
    }

    // Adds the next of a list of values.
    method Add(value: nat, width: nat, ghost values: seq<nat>, ghost i: nat)
      requires |values| == |WIDTHS| && i < |values| && value == values[i] && width == WIDTHS[i]
      requires data == Pack(values[..i], WIDTHS[..i])
      modifies this
      ensures data == Pack(values[..i + 1], WIDTHS[..i + 1])
    {
      PackStep(values, WIDTHS, i);
      data := data + DigitsOf(256, value, width);
    }
  }

  // Going past the end of the data is an error.
  class SerialIter {
    const data: seq<nat>
    var at: nat

    constructor (d: seq<nat>)
      ensures data == d && at == 0
    {
      data, at := d, 0;
    }

    method Get(width: nat) returns (r: Result<nat, Error>)
      requires at <= |data|
      modifies this
      ensures r.Ok? <==> old(at) + width <= |data|
      ensures r.Ok? ==> at == old(at) + width && r.value == At(data, old(at), width)
      ensures r.Err? ==> at == old(at) && r.error == NotEnoughData
    {
      if at + width > |data| {
        return Err(NotEnoughData);
      }
      r := Ok(ValueOf(256, data[at..at + width]));
      at := at + width;
    }
  }

  method LedgerInfoToBlob(h: Header, includeHash: bool) returns (data: seq<nat>)
    ensures data == Encode(h, includeHash)
  {
    var s := new Serializer();
    ghost var values := Values(h);
    AddHashes(s, h, values);
    AddTimes(s, h, values);
    if includeHash {
      s.Add(h.hash, 32, values, 9);
      assert values[..10] == values && WIDTHS[..10] == WIDTHS;
    }
    data := s.data;
  }

  method AddHashes(s: Serializer, h: Header, ghost values: seq<nat>)
    requires values == Values(h) && s.data == []
    modifies s
    ensures s.data == Pack(values[..5], WIDTHS[..5])
  {
    s.Add(h.number, 4, values, 0);
    s.Add(Unsigned64(h.drops), 8, values, 1);
    s.Add(h.parentHash, 32, values, 2);
    s.Add(h.txHash, 32, values, 3);
    s.Add(h.accountHash, 32, values, 4);
  }

  method AddTimes(s: Serializer, h: Header, ghost values: seq<nat>)
    requires values == Values(h) && s.data == Pack(values[..5], WIDTHS[..5])
    modifies s
    ensures s.data == Pack(values[..9], WIDTHS[..9])
  {
    s.Add(h.parentCloseTime, 4, values, 5);
    s.Add(h.closeTime, 4, values, 6);
    s.Add(h.closeTimeResolution, 1, values, 7);
    s.Add(h.closeFlags, 1, values, 8);
  }

  method DeserializeHeader(data: seq<nat>) returns (r: Result<Header, Error>)
    ensures r == Decode(data)
  {
    var sit := new SerialIter(data);
    var number :- sit.Get(4);
    var drops :- sit.Get(8);
    var hashes :- GetHashes(sit);
    var times :- GetTimes(sit);
    var hash :- sit.Get(32);
    r := Ok(Header(number, Signed64(drops), hashes.0, hashes.1, hashes.2, times.0, times.1, times.2, times.3, hash));
  }

  method GetHashes(sit: SerialIter) returns (r: Result<(nat, nat, nat), Error>)
    requires sit.at <= |sit.data|
    modifies sit
    ensures r.Ok? <==> old(sit.at) + 96 <= |sit.data|
    ensures r.Ok? ==> sit.at == old(sit.at) + 96 && r.value == (
      At(sit.data, old(sit.at), 32), At(sit.data, old(sit.at) + 32, 32), At(sit.data, old(sit.at) + 64, 32))
    ensures r.Err? ==> r.error == NotEnoughData
  {
    var parentHash :- sit.Get(32);
    var txHash :- sit.Get(32);
    var accountHash :- sit.Get(32);
    return Ok((parentHash, txHash, accountHash));
  }

  // The close times, their resolution and the flags.
  method GetTimes(sit: SerialIter) returns (r: Result<(nat, nat, nat, nat), Error>)
    requires sit.at <= |sit.data|
    modifies sit
    ensures r.Ok? <==> old(sit.at) + 10 <= |sit.data|
    ensures r.Ok? ==> sit.at == old(sit.at) + 10 && r.value == (
      At(sit.data, old(sit.at), 4), At(sit.data, old(sit.at) + 4, 4),
      At(sit.data, old(sit.at) + 8, 1), At(sit.data, old(sit.at) + 9, 1))
    ensures r.Err? ==> r.error == NotEnoughData
  {
    var parentCloseTime :- sit.Get(4);
    var closeTime :- sit.Get(4);
    var closeTimeResolution :- sit.Get(1);
    var closeFlags :- sit.Get(1);
    return Ok((parentCloseTime, closeTime, closeTimeResolution, closeFlags));
  }

  /* The layout */

  lemma {:induction false} PackMore(values: seq<nat>, widths: seq<nat>, value: nat, width: nat)
    requires |values| == |widths|
    ensures Pack(values + [value], widths + [width]) == Pack(values, widths) + DigitsOf(256, value, width)
  {
    if values != [] {
      PackMore(values[1..], widths[1..], value, width);
      assert (values + [value])[1..] == values[1..] + [value] && (widths + [width])[1..] == widths[1..] + [width];
    } else {
      assert (values + [value])[1..] == [] && (widths + [width])[1..] == [];
    }
  }

  lemma PackStep(values: seq<nat>, widths: seq<nat>, i: nat)
    requires |values| == |widths| && i < |values|
    ensures Pack(values[..i + 1], widths[..i + 1]) == Pack(values[..i], widths[..i]) + DigitsOf(256, values[i], widths[i])
  {
    PackMore(values[..i], widths[..i], values[i], widths[i]);
    assert values[..i + 1] == values[..i] + [values[i]] && widths[..i + 1] == widths[..i] + [widths[i]];
  }

  lemma {:induction false} TotalMore(widths: seq<nat>, width: nat)
    ensures Total(widths + [width]) == Total(widths) + width
  {
    if widths != [] {
      TotalMore(widths[1..], width);
      assert (widths + [width])[1..] == widths[1..] + [width];
    } else {
      assert (widths + [width])[1..] == [];
    }
  }

  lemma TotalStep(widths: seq<nat>, i: nat)
    requires i < |widths|
    ensures Total(widths[..i + 1]) == Total(widths[..i]) + widths[i]
  {
    TotalMore(widths[..i], widths[i]);
    assert widths[..i + 1] == widths[..i] + [widths[i]];
  }

  lemma Offsets()
    ensures Total(WIDTHS[..0]) == 0 && Total(WIDTHS[..1]) == 4 && Total(WIDTHS[..2]) == 12 && Total(WIDTHS[..3]) == 44
    ensures Total(WIDTHS[..4]) == 76 && Total(WIDTHS[..5]) == 108 && Total(WIDTHS[..6]) == 112 && Total(WIDTHS[..7]) == 116
    ensures Total(WIDTHS[..8]) == 117 && Total(WIDTHS[..9]) == 118 && Total(WIDTHS) == HEADER_SIZE
  {
    TotalStep(WIDTHS, 0);
    TotalStep(WIDTHS, 1);
    TotalStep(WIDTHS, 2);
    TotalStep(WIDTHS, 3);
    TotalStep(WIDTHS, 4);
    TotalStep(WIDTHS, 5);
    TotalStep(WIDTHS, 6);
    TotalStep(WIDTHS, 7);
    TotalStep(WIDTHS, 8);
    TotalStep(WIDTHS, 9);
    assert WIDTHS[..10] == WIDTHS;
  }

  // Each value is found at its offset.
  lemma {:induction false} UnpackedAt(data: seq<nat>, widths: seq<nat>, i: nat)
    requires Unpack(data, widths).Some? && i < |widths|
    ensures |Unpack(data, widths).value| == |widths|
    ensures Total(widths[..i]) + widths[i] <= |data|
    ensures Unpack(data, widths).value[i] == At(data, Total(widths[..i]), widths[i])
  {
    var rest := data[widths[0]..];
    UnpackedSize(rest, widths[1..]);
    if i > 0 {
      UnpackedAt(rest, widths[1..], i - 1);
      assert widths[..i][1..] == widths[1..][..i - 1];
      var from := Total(widths[1..][..i - 1]);
      assert data[widths[0] + from..widths[0] + from + widths[i]] == rest[from..from + widths[i]];
    }
  }

  lemma {:induction false} UnpackedSize(data: seq<nat>, widths: seq<nat>)
    ensures Unpack(data, widths).Some? ==> |Unpack(data, widths).value| == |widths|
  {
    if widths != [] && |data| >= widths[0] {
      UnpackedSize(data[widths[0]..], widths[1..]);
    }
  }

  lemma DecodeIsUnpack(data: seq<nat>)
    requires Unpack(data, WIDTHS).Some? && |data| >= HEADER_SIZE
    ensures |Unpack(data, WIDTHS).value| == |WIDTHS|
    ensures Decode(data) == Ok(HeaderOf(Unpack(data, WIDTHS).value))
  {
    Offsets();
    UnpackedSize(data, WIDTHS);
    forall i: nat | i < |WIDTHS|
      ensures Total(WIDTHS[..i]) + WIDTHS[i] <= |data|
      ensures Unpack(data, WIDTHS).value[i] == At(data, Total(WIDTHS[..i]), WIDTHS[i])
    {
      UnpackedAt(data, WIDTHS, i);
    }
  }

  lemma Widths()
    ensures Pow(256, 8) == UINT64_SPAN
  {
    assert Pow(256, 4) == 256 * 256 * 256 * 256;
    assert Pow(256, 6) == Pow(256, 4) * 256 * 256;
  }

  lemma SignedBack(n: int)
    ensures -INT64_SPAN <= n < INT64_SPAN ==> Signed64(Unsigned64(n)) == n
    ensures 0 <= n < UINT64_SPAN ==> Unsigned64(Signed64(n)) == n
  {
  }

  lemma {:induction false} PackedSize(values: seq<nat>, widths: seq<nat>)
    requires |values| == |widths|
    ensures |Pack(values, widths)| == Total(widths)
  {
    if values != [] {
      PackedSize(values[1..], widths[1..]);
    }
  }

  // A header stored with its hash is read back as it was.
  lemma HeaderRoundTrip(h: Header)
    requires Fits(h)
    ensures Decode(Encode(h, true)) == Ok(h)
  {
    var values := Values(h);
    Widths();
    SignedBack(h.drops);
    UnpackPack(values, WIDTHS, []);
    PackedSize(values, WIDTHS);
    assert Pack(values, WIDTHS) + [] == Pack(values, WIDTHS);
    Offsets();
    DecodeIsUnpack(Encode(h, true));
  }

  // Values of a header read from bytes are the numbers read.
  lemma ValuesBack(values: seq<nat>)
    requires |values| == |WIDTHS| && values[1] < UINT64_SPAN
    ensures Values(HeaderOf(values)) == values
  {
    SignedBack(values[1]);
  }

  lemma DropsAreSmall(data: seq<nat>)
    requires Within(256, data) && |data| >= HEADER_SIZE
    ensures At(data, 4, 8) < UINT64_SPAN
  {
    Widths();
    assert |data[4..12]| == 8;
    ValueIsSmall(256, data[4..12]);
  }

  // Any header read is written back as the bytes it came from.
  lemma BytesRoundTrip(data: seq<nat>)
    requires Within(256, data) && |data| >= HEADER_SIZE
    ensures Decode(data).Ok? && Encode(Decode(data).value, true) == data[..HEADER_SIZE]
  {
    PackUnpack(data, WIDTHS);
    Offsets();
    DecodeIsUnpack(data);
    UnpackedAt(data, WIDTHS, 1);
    DropsAreSmall(data);
    ValuesBack(Unpack(data, WIDTHS).value);
  }

  // Without the hash, as sent to clients, the bytes are the same up to the hash, and cannot be read back.
  lemma HashIsNeeded(h: Header)
    ensures |Encode(h, false)| == 118 && Decode(Encode(h, false)).Err?
    ensures |Encode(h, true)| == HEADER_SIZE && Encode(h, false) == Encode(h, true)[..118]
  {
    Offsets();
    var values := Values(h);
    PackedSize(values[..9], WIDTHS[..9]);
    PackedSize(values, WIDTHS);
    PackStep(values, WIDTHS, 9);
    assert values[..10] == values && WIDTHS[..10] == WIDTHS;
  }

  // Which bytes hold which field.
  lemma HeaderLayout(h: Header)
    requires Fits(h)
    ensures |Encode(h, true)| == 150
    ensures var data := Encode(h, true);
      && ValueOf(256, data[..4]) == h.number
      && ValueOf(256, data[4..12]) == (if h.drops < 0 then h.drops + UINT64_SPAN else h.drops)
      && ValueOf(256, data[12..44]) == h.parentHash
      && ValueOf(256, data[44..76]) == h.txHash
      && ValueOf(256, data[76..108]) == h.accountHash
      && ValueOf(256, data[108..112]) == h.parentCloseTime
      && ValueOf(256, data[112..116]) == h.closeTime
      && ValueOf(256, data[116..117]) == h.closeTimeResolution
      && ValueOf(256, data[117..118]) == h.closeFlags
      && ValueOf(256, data[118..]) == h.hash
  {
    HashIsNeeded(h);
    HeaderRoundTrip(h);
    var data := Encode(h, true);
    assert data[0..4] == data[..4] && data[118..150] == data[118..];
    DigitsInBytes(h);
    DropsAreSmall(data);
    DropsAre(At(data, 4, 8), h.drops);
  }

  lemma DropsAre(n: nat, drops: int)
    requires n < UINT64_SPAN && Signed64(n) == drops
    ensures n == if drops < 0 then drops + UINT64_SPAN else drops
  {
  }

  lemma {:induction false} PackedBytes(values: seq<nat>, widths: seq<nat>)
    requires |values| == |widths|
    ensures Within(256, Pack(values, widths))
  {
    if values != [] {
      DigitsAreWithin(256, values[0], widths[0]);
      PackedBytes(values[1..], widths[1..]);
    }
  }

  lemma DigitsInBytes(h: Header)
    ensures Within(256, Encode(h, true))
  {
    PackedBytes(Values(h), WIDTHS);
  }

  /* Cursors as text */

  function DigitChar(d: nat): char
    requires d < 16
  {
    "0123456789ABCDEF"[d]
  }

  // A digit's value; anything else is no digit in any base used here.
  function CharDigit(c: char): nat {
    if '0' <= c <= '9' then c as int - '0' as int
    else if 'A' <= c <= 'F' then c as int - 'A' as int + 10
    else if 'a' <= c <= 'f' then c as int - 'a' as int + 10
    else 99
  }

  function Text(digits: seq<nat>): string
    requires forall i | 0 <= i < |digits| :: digits[i] < 16
  {
    seq(|digits|, i requires 0 <= i < |digits| => DigitChar(digits[i]))
  }

  function NumberIn(base: nat, text: string): Option<nat> {
    if text != [] && forall i | 0 <= i < |text| :: CharDigit(text[i]) < base then
      Some(ValueOf(base, seq(|text|, i requires 0 <= i < |text| => CharDigit(text[i]))))
    else
      None
  }

  function ToString(c: AccountCursor): string {
    DigitsAreWithin(16, c.index, 64);
    AllDigitsAreWithin(10, c.hint);
    Text(DigitsOf(16, c.index, 64)) + "," + Text(AllDigits(10, c.hint))
  }

  // std::getline up to a comma.
  function UpToComma(text: string): string {
    if text == [] || text[0] == ',' then [] else [text[0]] + UpToComma(text[1..])
  }

  // 64 hexadecimal digits, in either case.
  function ParseIndex(text: string): (r: Option<Key>) {
    if |text| == 64 && NumberIn(16, text).Some? then
      IndexIsKey(text);
      Some(NumberIn(16, text).value)
    else
      None
  }

  // Without text the listing starts at the beginning. The hint is read as 64 bits and kept as 32;
  // what follows a second comma is ignored.
  function ParseAccountCursor(json: Option<string>): Option<AccountCursor> {
    match json
    case None => Some(NO_CURSOR)
    case Some(text) =>
      var first := UpToComma(text);
      var index := ParseIndex(first);
      if index.None? || |text| <= |first| + 1 then
        None
      else
        var hint := NumberIn(10, UpToComma(text[|first| + 1..]));
        if hint.None? || hint.value >= UINT64_SPAN then
          None
        else
          Some(AccountCursor(index.value, hint.value % HINT_SPAN))
  }

  lemma {:induction false} PowAdd(base: nat, j: nat, k: nat)
    ensures Pow(base, j + k) == Pow(base, j) * Pow(base, k)
  {
    if k > 0 {
      PowAdd(base, j, k - 1);
      Associative(Pow(base, j), Pow(base, k - 1), base);
    }
  }

  lemma Associative(a: nat, b: nat, c: nat)
    ensures (a * b) * c == a * (b * c)
  {
  }

  lemma KeyRange()
    ensures Pow(16, 64) == LAST_KEY + 1
  {
    assert Pow(16, 4) == 0x1_0000;
    PowAdd(16, 4, 4);
    PowAdd(16, 8, 8);
    PowAdd(16, 16, 16);
    PowAdd(16, 32, 32);
    assert Pow(16, 8) == 0x1_0000_0000;
    assert Pow(16, 16) == 0x1_0000_0000_0000_0000;
    assert Pow(16, 32) == 0x1_0000_0000_0000_0000_0000_0000_0000_0000;
  }

  lemma IndexIsKey(text: string)
    requires |text| == 64 && NumberIn(16, text).Some?
    ensures NumberIn(16, text).value <= LAST_KEY
  {
    KeyRange();
    ValueIsSmall(16, seq(|text|, i requires 0 <= i < |text| => CharDigit(text[i])));
  }

  lemma {:induction false} BeforeComma(a: string, b: string)
    requires ',' !in a
    ensures UpToComma(a + "," + b) == a
    ensures b == [] ==> UpToComma(a) == a
  {
    if a == [] {
      assert a + "," + b == "," + b;
    } else {
      assert (a + "," + b)[1..] == a[1..] + "," + b && (a + "," + b)[0] == a[0];
      BeforeComma(a[1..], b);
    }
  }

  lemma TextIsNumber(base: nat, digits: seq<nat>)
    requires 1 < base <= 16 && digits != [] && Within(base, digits)
    ensures NumberIn(base, Text(digits)) == Some(ValueOf(base, digits)) && ',' !in Text(digits)
  {
    var text := Text(digits);
    assert forall i | 0 <= i < |text| :: CharDigit(text[i]) == digits[i];
    assert seq(|text|, i requires 0 <= i < |text| => CharDigit(text[i])) == digits;
  }

  lemma ParsesParts(a: string, b: string, index: Key, hint: nat)
    requires ',' !in a && ',' !in b && ParseIndex(a) == Some(index) && NumberIn(10, b) == Some(hint) && hint < UINT64_SPAN
    ensures ParseAccountCursor(Some(a + "," + b)) == Some(AccountCursor(index, hint % HINT_SPAN))
  {
    var text := a + "," + b;
    BeforeComma(a, b);
    BeforeComma(b, []);
    assert text[|a| + 1..] == b;
  }

  // Written numbers are read as they were, up to the 32 bits kept of the hint.
  lemma ReadsNumbers(index: Key, hint: nat, kept: nat)
    requires hint < UINT64_SPAN && kept == hint % HINT_SPAN
    ensures ParseAccountCursor(Some(ToString(AccountCursor(index, hint)))) == Some(AccountCursor(index, kept))
  {
    var a, b := DigitsOf(16, index, 64), AllDigits(10, hint);
    DigitsAreWithin(16, index, 64);
    AllDigitsAreWithin(10, hint);
    KeyRange();
    ValueOfDigits(16, index, 64);
    ValueOfAllDigits(10, hint);
    TextIsNumber(16, a);
    TextIsNumber(10, b);
    ParsesParts(Text(a), Text(b), index, hint);
  }

  // The text of a cursor: sixty-four digits of the index, a comma, and the hint in decimal.
  lemma CursorText(index: Key, hint: nat)
    ensures var text := ToString(AccountCursor(index, hint));
      && |text| > 65 && text[64] == ','
      && NumberIn(16, text[..64]) == Some(index) && NumberIn(10, text[65..]) == Some(hint)
  {
    var a, b := DigitsOf(16, index, 64), AllDigits(10, hint);
    DigitsAreWithin(16, index, 64);
    AllDigitsAreWithin(10, hint);
    KeyRange();
    ValueOfDigits(16, index, 64);
    ValueOfAllDigits(10, hint);
    TextIsNumber(16, a);
    TextIsNumber(10, b);
    var text := ToString(AccountCursor(index, hint));
    assert text[..64] == Text(a) && text[65..] == Text(b);
  }

  lemma {:induction false} UpToCommaIs(text: string)
    ensures UpToComma(text) <= text && ',' !in UpToComma(text)
    ensures |UpToComma(text)| < |text| ==> text[|UpToComma(text)|] == ','
  {
    if text != [] && text[0] != ',' {
      UpToCommaIs(text[1..]);
    }
  }

  // Nothing else is accepted: a text that is read has sixty-four hexadecimal digits, a comma, and
  // decimal digits up to the end or another comma, of which 32 bits are kept.
  lemma OnlyCursorsAreRead(text: string, cursor: AccountCursor) returns (end: nat)
    requires ParseAccountCursor(Some(text)) == Some(cursor)
    ensures |text| > 65 && text[64] == ',' && NumberIn(16, text[..64]) == Some(cursor.index)
    ensures 65 < end <= |text| && (end < |text| ==> text[end] == ',') && ',' !in text[65..end]
    ensures NumberIn(10, text[65..end]).Some? && NumberIn(10, text[65..end]).value % HINT_SPAN == cursor.hint
  {
    var first := UpToComma(text);
    UpToCommaIs(text);
    assert first == text[..64];
    var rest := text[65..];
    var second := UpToComma(rest);
    UpToCommaIs(rest);
    end := 65 + |second|;
    assert text[65..end] == rest[..|second|] == second;
  }

  // A cursor given to a client is read back as it was, for every 256-bit index and 32-bit hint.
  lemma CursorRoundTrip(index: Key, hint: nat)
    requires hint < HINT_SPAN
    ensures ParseAccountCursor(Some(ToString(AccountCursor(index, hint)))) == Some(AccountCursor(index, hint))
  {
    ReadsNumbers(index, hint, hint);
  }
}
