/**
  The binary form in which a downloaded rule-set is kept in the cache file:
  a version byte, the length-prefixed content, the update time in whole
  seconds as a big-endian signed 64-bit number, and the length-prefixed etag.
 */
module SavedBinaryCodec {

  type Byte = b: int | 0 <= b < 256

  const TWO_63: int := 0x8000_0000_0000_0000
  const TWO_64: int := 0x1_0000_0000_0000_0000
  const NANOSECONDS: int := 1_000_000_000
  const MAX_VARINT_LEN: nat := 10

  datatype Error = Eof | UnexpectedEof | Overflow | LengthOutOfRange

  // A reader step: the value and what is left to read, or the error.
  datatype Parsed<+T> = Parsed(value: T, rest: seq<Byte>) | Failed(error: Error)

  // Times are nanoseconds since the epoch.
  datatype Saved = Saved(content: seq<Byte>, lastUpdated: int, lastEtag: seq<Byte>)

  /** Lengths fit Go's `int`, and the time in seconds fits an int64. */
  predicate Representable(s: Saved) {
    |s.content| < TWO_63 && |s.lastEtag| < TWO_63 && -TWO_63 <= Unix(s.lastUpdated) < TWO_63
  }

  function Unix(time: int): int {
    time / NANOSECONDS
  }

  function WholeSeconds(s: Saved): Saved {
    s.(lastUpdated := Unix(s.lastUpdated) * NANOSECONDS)
  }

  // ----- the format

  function Uvarint(n: nat): seq<Byte> {
    if n < 128 then [n] else [128 + n % 128] + Uvarint(n / 128)
  }

  function BigEndian(n: nat, width: nat): seq<Byte> {
    if width == 0 then [] else BigEndian(n / 256, width - 1) + [n % 256]
  }

  function TwosComplement(n: int): int {
    if n < 0 then n + TWO_64 else n
  }

  function Marshal(s: Saved): seq<Byte> {
    [1] + Uvarint(|s.content|) + s.content
    + BigEndian(TwosComplement(Unix(s.lastUpdated)) % TWO_64, 8)
    + Uvarint(|s.lastEtag|) + s.lastEtag
  }

  // ----- reading

  /** The tail of a uvarint, `i` bytes of which are already read. */
  function ReadUvarint(data: seq<Byte>, i: nat): (r: Parsed<nat>)
    requires i < MAX_VARINT_LEN
    decreases MAX_VARINT_LEN - i
  {
    if data == [] then Failed(if i > 0 then UnexpectedEof else Eof)
    else if data[0] < 128 then
      if i == MAX_VARINT_LEN - 1 && data[0] > 1 then Failed(Overflow) else Parsed(data[0], data[1..])
    else if i == MAX_VARINT_LEN - 1 then Failed(Overflow)
    else
      match ReadUvarint(data[1..], i + 1)
      case Parsed(high, rest) => Parsed(data[0] - 128 + 128 * high, rest)
      case Failed(e) => Failed(e)
  }

  function ReadFull(data: seq<Byte>, length: nat): Parsed<seq<Byte>> {
    if length >= TWO_63 then Failed(LengthOutOfRange)
    else if length <= |data| then Parsed(data[..length], data[length..])
    else Failed(if data == [] then Eof else UnexpectedEof)
  }

  function FromBigEndian(data: seq<Byte>): nat {
    if data == [] then 0 else FromBigEndian(data[..|data| - 1]) * 256 + data[|data| - 1]
  }

  function Signed(n: nat): int {
    if n < TWO_63 then n else n - TWO_64
  }

  function ReadInt64(data: seq<Byte>): Parsed<int> {
    match ReadFull(data, 8)
    case Parsed(bytes, rest) => Parsed(Signed(FromBigEndian(bytes)), rest)
    case Failed(e) => Failed(e)
  }

  function ReadBlock(data: seq<Byte>): Parsed<seq<Byte>> {
    match ReadUvarint(data, 0)
    case Failed(e) => Failed(e)
    case Parsed(length, rest) => ReadFull(rest, length)
  }

  /** The reader's view of a whole file; the version byte is read and not checked. */
  function Unmarshal(data: seq<Byte>): Parsed<Saved> {
    if data == [] then Failed(Eof) else
    match ReadBlock(data[1..])
    case Failed(e) => Failed(e)
    case Parsed(content, rest) =>
      match ReadInt64(rest)
      case Failed(e) => Failed(e)
      case Parsed(seconds, rest) =>
        match ReadBlock(rest)
        case Failed(e) => Failed(e)
        case Parsed(etag, rest) => Parsed(Saved(content, seconds * NANOSECONDS, etag), rest)
  }

  // ----- the pieces undo each other

  /** The values that `10 - i` more uvarint bytes can hold in a uint64. */
  function UvarintBound(i: nat): nat
    requires i < MAX_VARINT_LEN
    decreases MAX_VARINT_LEN - i
  {
    if i == MAX_VARINT_LEN - 1 then 2 else 128 * UvarintBound(i + 1)
  }

  lemma {:induction false} UvarintRoundTrip(n: nat, i: nat, tail: seq<Byte>)
    requires i < MAX_VARINT_LEN && n < UvarintBound(i)
    ensures ReadUvarint(Uvarint(n) + tail, i) == Parsed(n, tail)
  {
    var data := Uvarint(n) + tail;
    if n < 128 {
      assert data[1..] == tail;
    } else {
      assert data[1..] == Uvarint(n / 128) + tail;
      UvarintRoundTrip(n / 128, i + 1, tail);
    }
  }

  lemma UvarintBoundIsUint64()
    ensures UvarintBound(0) == TWO_64
  {
  }

  function Pow256(width: nat): nat {
    if width == 0 then 1 else 256 * Pow256(width - 1)
  }

  lemma {:induction false} BigEndianRoundTrip(n: nat, width: nat)
    requires n < Pow256(width)
    ensures |BigEndian(n, width)| == width && FromBigEndian(BigEndian(n, width)) == n
  {
    if width > 0 {
      BigEndianRoundTrip(n / 256, width - 1);
      var bytes := BigEndian(n, width);
      assert bytes[..|bytes| - 1] == BigEndian(n / 256, width - 1);
    }
  }

  lemma LengthRoundTrip(n: nat, tail: seq<Byte>)
    requires n < TWO_64
    ensures ReadUvarint(Uvarint(n) + tail, 0) == Parsed(n, tail)
  {
    UvarintBoundIsUint64();
    UvarintRoundTrip(n, 0, tail);
  }

  lemma BlockRoundTrip(block: seq<Byte>, tail: seq<Byte>)
    requires |block| < TWO_63
    ensures ReadBlock(Uvarint(|block|) + block + tail) == Parsed(block, tail)
  {
    LengthRoundTrip(|block|, block + tail);
    assert Uvarint(|block|) + block + tail == Uvarint(|block|) + (block + tail);
    FullRoundTrip(block, tail);
  }

  lemma FullRoundTrip(block: seq<Byte>, tail: seq<Byte>)
    requires |block| < TWO_63
    ensures ReadFull(block + tail, |block|) == Parsed(block, tail)
  {
  }

  lemma Int64RoundTrip(n: int, tail: seq<Byte>)
    requires -TWO_63 <= n < TWO_63
    ensures ReadInt64(BigEndian(TwosComplement(n) % TWO_64, 8) + tail) == Parsed(n, tail)
  {
    var u := TwosComplement(n) % TWO_64;
    assert u == TwosComplement(n);
    assert Pow256(4) == 0x1_0000_0000 && Pow256(8) == TWO_64 by {
      assert Pow256(2) == 65536 && Pow256(6) == 65536 * Pow256(4);
    }
    BigEndianRoundTrip(u, 8);
    var bytes := BigEndian(u, 8);
    assert (bytes + tail)[..8] == bytes && (bytes + tail)[8..] == tail;
  }

  /** Decoding what was encoded gives the same entry in whole seconds, and stops right after it. */
  lemma RoundTrip(s: Saved, tail: seq<Byte>)
    requires Representable(s)
    ensures Unmarshal(Marshal(s) + tail) == Parsed(WholeSeconds(s), tail)
  {
    var time := BigEndian(TwosComplement(Unix(s.lastUpdated)) % TWO_64, 8);
    var etag := Uvarint(|s.lastEtag|) + s.lastEtag;
    var data := Marshal(s) + tail;
    var rest := time + (etag + tail);
    assert data[1..] == Uvarint(|s.content|) + s.content + rest;
    BlockRoundTrip(s.content, rest);
    Int64RoundTrip(Unix(s.lastUpdated), etag + tail);
    BlockRoundTrip(s.lastEtag, tail);
  }

  // ----- more input never changes what was already read

  lemma {:induction false} UvarintExtends(data: seq<Byte>, i: nat, more: seq<Byte>)
    requires i < MAX_VARINT_LEN && ReadUvarint(data, i).Parsed?
    ensures var r := ReadUvarint(data, i); ReadUvarint(data + more, i) == Parsed(r.value, r.rest + more)
    decreases MAX_VARINT_LEN - i
  {
    assert (data + more)[0] == data[0] && (data + more)[1..] == data[1..] + more;
    if data[0] >= 128 { UvarintExtends(data[1..], i + 1, more); }
  }

  lemma FullExtends(data: seq<Byte>, length: nat, more: seq<Byte>)
    requires ReadFull(data, length).Parsed?
    ensures var r := ReadFull(data, length); ReadFull(data + more, length) == Parsed(r.value, r.rest + more)
  {
    assert (data + more)[..length] == data[..length] && (data + more)[length..] == data[length..] + more;
  }

  lemma BlockExtends(data: seq<Byte>, more: seq<Byte>)
    requires ReadBlock(data).Parsed?
    ensures var r := ReadBlock(data); ReadBlock(data + more) == Parsed(r.value, r.rest + more)
  {
    UvarintExtends(data, 0, more);
    var length := ReadUvarint(data, 0);
    FullExtends(length.rest, length.value, more);
  }

  lemma UnmarshalExtends(data: seq<Byte>, more: seq<Byte>)
    requires Unmarshal(data).Parsed?
    ensures var r := Unmarshal(data); Unmarshal(data + more) == Parsed(r.value, r.rest + more)
  {
    assert (data + more)[1..] == data[1..] + more;
    BlockExtends(data[1..], more);
    var rest := ReadBlock(data[1..]).rest;
    FullExtends(rest, 8, more);
    BlockExtends(ReadInt64(rest).rest, more);
  }

  lemma NoEarlyStop(data: seq<Byte>, cut: nat)
    requires cut < |data| && Unmarshal(data).Parsed? && Unmarshal(data).rest == []
    ensures Unmarshal(data[..cut]).Failed?
  {
    var front, back := data[..cut], data[cut..];
    assert front + back == data;
    if Unmarshal(front).Parsed? {
      UnmarshalExtends(front, back);
    }
  }

  /** A file cut short at any point is never accepted. */
  lemma TruncationIsDetected(s: Saved, cut: nat)
    requires Representable(s) && cut < |Marshal(s)|
    ensures Unmarshal(Marshal(s)[..cut]).Failed?
  {
    var data := Marshal(s);
    assert Unmarshal(data) == Parsed(WholeSeconds(s), []) by {
      RoundTrip(s, []);
      assert data + [] == data;
    }
    NoEarlyStop(data, cut);
  }

  /** Two entries with the same encoding agree in everything but the fraction of a second. */
  lemma MarshalIsInjective(s: Saved, t: Saved)
    requires Representable(s) && Representable(t)
    ensures Marshal(s) == Marshal(t) <==> WholeSeconds(s) == WholeSeconds(t)
  {
    if Marshal(s) == Marshal(t) {
      RoundTrip(s, []);
      RoundTrip(t, []);
    }
  }

  // ----- the bytes themselves

  /** The value of bytes whose low seven bits are digits, the least significant first. */
  function Base128(bytes: seq<Byte>): nat {
    if bytes == [] then 0 else bytes[0] % 128 + 128 * Base128(bytes[1..])
  }

  /** A uvarint is the number in base 128, least significant digit first, the high bit on all bytes but the last. */
  lemma {:induction false} UvarintDigits(n: nat)
    ensures Uvarint(n) != [] && Base128(Uvarint(n)) == n
    ensures forall i :: 0 <= i < |Uvarint(n)| ==> (Uvarint(n)[i] >= 128 <==> i < |Uvarint(n)| - 1)
    ensures |Uvarint(n)| > 1 ==> Uvarint(n)[|Uvarint(n)| - 1] != 0
  {
    if n >= 128 {
      UvarintDigits(n / 128);
      assert Uvarint(n)[1..] == Uvarint(n / 128);
    }
  }

  /** A uvarint that is read is the value of the bytes it takes, at most ten in all, and fits a uint64. */
  lemma {:induction false} ReadUvarintMeans(data: seq<Byte>, i: nat) returns (taken: seq<Byte>)
    requires i < MAX_VARINT_LEN && ReadUvarint(data, i).Parsed?
    ensures data == taken + ReadUvarint(data, i).rest && 0 < |taken| <= MAX_VARINT_LEN - i
    ensures Base128(taken) == ReadUvarint(data, i).value < UvarintBound(i)
    ensures forall k :: 0 <= k < |taken| ==> (taken[k] >= 128 <==> k < |taken| - 1)
    decreases MAX_VARINT_LEN - i
  {
    if data[0] < 128 {
      taken := [data[0]];
      assert taken[1..] == [];
      if i < MAX_VARINT_LEN - 1 { BoundAtLeast(i); }
    } else {
      var later := ReadUvarintMeans(data[1..], i + 1);
      taken := [data[0]] + later;
      assert taken[1..] == later;
    }
  }

  lemma BoundAtLeast(i: nat)
    requires i < MAX_VARINT_LEN - 1
    ensures UvarintBound(i) >= 128
    decreases MAX_VARINT_LEN - i
  {
    if i < MAX_VARINT_LEN - 2 { BoundAtLeast(i + 1); }
  }

  /** And it is not read when the data ends first, or when its value does not fit. */
  lemma {:induction false} ReadUvarintFails(data: seq<Byte>, i: nat)
    requires i < MAX_VARINT_LEN && ReadUvarint(data, i).Failed?
    ensures var error := ReadUvarint(data, i).error;
            if |data| < MAX_VARINT_LEN - i && forall k :: 0 <= k < |data| ==> data[k] >= 128
            then error == if data == [] && i == 0 then Eof else UnexpectedEof
            else error == Overflow && |data| >= MAX_VARINT_LEN - i && data[MAX_VARINT_LEN - 1 - i] > 1
    decreases MAX_VARINT_LEN - i
  {
    if data != [] && i < MAX_VARINT_LEN - 1 {
      ReadUvarintFails(data[1..], i + 1);
      assert forall k :: 0 < k < |data| ==> data[k] == data[1..][k - 1];
    }
  }

  /** The value of bytes as digits, the most significant first. */
  function Base256(bytes: seq<Byte>): nat {
    if bytes == [] then 0 else bytes[0] * Pow256(|bytes| - 1) + Base256(bytes[1..])
  }

  lemma {:induction false} Base256Snoc(bytes: seq<Byte>, b: Byte)
    ensures Base256(bytes + [b]) == 256 * Base256(bytes) + b
  {
    if bytes == [] {
      assert ([] + [b])[1..] == [];
      assert Pow256(0) == 1 && Base256([] + [b]) == b * Pow256(0);
    } else {
      assert (bytes + [b])[1..] == bytes[1..] + [b];
      Base256Snoc(bytes[1..], b);
      ShiftDigit(bytes[0], |bytes| - 1);
    }
  }

  lemma ShiftDigit(digit: nat, k: nat)
    ensures digit * Pow256(k + 1) == 256 * (digit * Pow256(k))
  {
    var p := Pow256(k);
    assert digit * (256 * p) == 256 * (digit * p);
  }

  /** A big-endian number has its most significant byte first. */
  lemma {:induction false} BigEndianDigits(n: nat, width: nat)
    requires n < Pow256(width)
    ensures |BigEndian(n, width)| == width && Base256(BigEndian(n, width)) == n
  {
    if width > 0 {
      BigEndianDigits(n / 256, width - 1);
      Base256Snoc(BigEndian(n / 256, width - 1), n % 256);
    }
  }

  lemma {:induction false} FromBigEndianDigits(bytes: seq<Byte>)
    ensures FromBigEndian(bytes) == Base256(bytes)
  {
    if bytes != [] {
      var front, last := bytes[..|bytes| - 1], bytes[|bytes| - 1];
      FromBigEndianDigits(front);
      Base256Snoc(front, last);
      assert front + [last] == bytes;
    }
  }

  /** The order of the parts, and what their bytes say: version, length and content, the time, length and etag. */
  lemma Layout(s: Saved) returns (length: seq<Byte>, time: seq<Byte>, etagLength: seq<Byte>)
    requires Representable(s)
    ensures Marshal(s) == [1] + length + s.content + time + etagLength + s.lastEtag
    ensures Base128(length) == |s.content| && Base128(etagLength) == |s.lastEtag|
    ensures |time| == 8
    ensures Base256(time) == if Unix(s.lastUpdated) < 0 then Unix(s.lastUpdated) + TWO_64 else Unix(s.lastUpdated)
  {
    var u := TwosComplement(Unix(s.lastUpdated));
    assert u % TWO_64 == u;
    length, time, etagLength := Uvarint(|s.content|), BigEndian(u, 8), Uvarint(|s.lastEtag|);
    UvarintDigits(|s.content|);
    UvarintDigits(|s.lastEtag|);
    assert u < Pow256(8) by { PowIsUint64(); }
    BigEndianDigits(u, 8);
  }

  lemma PowIsUint64()
    ensures Pow256(8) == TWO_64
  {
    assert Pow256(2) == 65536 && Pow256(4) == 0x1_0000_0000 && Pow256(6) == 65536 * Pow256(4);
  }

  /** The version byte is read and not looked at. */
  lemma VersionIsIgnored(v: Byte, w: Byte, rest: seq<Byte>)
    ensures Unmarshal([v] + rest) == Unmarshal([w] + rest)
  {
    assert ([v] + rest)[1..] == rest && ([w] + rest)[1..] == rest;
  }

  // ----- the methods

  method WriteUvarint(n: nat) returns (bytes: seq<Byte>)
    ensures bytes == Uvarint(n)
  {
    bytes := [];
    var left := n;
    while left >= 128
      invariant bytes + Uvarint(left) == Uvarint(n)
    {
      assert bytes + Uvarint(left) == (bytes + [128 + left % 128]) + Uvarint(left / 128);
      bytes := bytes + [128 + left % 128];
      left := left / 128;
    }
    bytes := bytes + [left];
  }

  function Weigh(scale: nat, digits: nat): nat {
    scale * digits
  }

  /** The value read when `x` is already collected and the next byte weighs `scale`. */
  ghost function Collected(x: nat, scale: nat, tail: Parsed<nat>): Parsed<nat> {
    if tail.Parsed? then Parsed(x + Weigh(scale, tail.value), tail.rest) else tail
  }

  lemma CollectByte(x: nat, scale: nat, data: seq<Byte>, i: nat)
    requires i < MAX_VARINT_LEN - 1 && data != [] && data[0] >= 128
    ensures Collected(x, scale, ReadUvarint(data, i))
            == Collected(x + Weigh(scale, data[0] - 128), Weigh(scale, 128), ReadUvarint(data[1..], i + 1))
  {
    var tail := ReadUvarint(data[1..], i + 1);
    if tail.Parsed? {
      var b, high := data[0] - 128, tail.value;
      assert scale * (b + 128 * high) == scale * b + scale * 128 * high;
    }
  }

  /** The last byte, or a failure, ends the reading. */
  lemma CollectEnd(x: nat, scale: nat, data: seq<Byte>, i: nat)
    requires i < MAX_VARINT_LEN && (data == [] || data[0] < 128 || i == MAX_VARINT_LEN - 1)
    ensures Collected(x, scale, ReadUvarint(data, i))
            == if data == [] then Failed(if i > 0 then UnexpectedEof else Eof)
               else if data[0] >= 128 || (i == MAX_VARINT_LEN - 1 && data[0] > 1) then Failed(Overflow)
               else Parsed(x + Weigh(scale, data[0]), data[1..])
  {
  }

  lemma CollectStart(tail: Parsed<nat>)
    ensures Collected(0, 1, tail) == tail
  {
  }

  method ReadUvarintBytes(data: seq<Byte>) returns (r: Parsed<nat>)
    ensures r == ReadUvarint(data, 0)
  {
    var x: nat, scale: nat, i: nat, rest := 0, 1, 0, data;
    ghost var result := ReadUvarint(data, 0);
    CollectStart(result);
    while true
      invariant i < MAX_VARINT_LEN
      invariant result == Collected(x, scale, ReadUvarint(rest, i))
      decreases MAX_VARINT_LEN - i
    {
      if rest == [] || rest[0] < 128 || i == MAX_VARINT_LEN - 1 {
        CollectEnd(x, scale, rest, i);
      } else {
        CollectByte(x, scale, rest, i);
      }
      if rest == [] { return Failed(if i > 0 then UnexpectedEof else Eof); }
      var b := rest[0];
      if b < 128 {
        if i == MAX_VARINT_LEN - 1 && b > 1 { return Failed(Overflow); }
        return Parsed(x + Weigh(scale, b), rest[1..]);
      }
      if i == MAX_VARINT_LEN - 1 { return Failed(Overflow); }
      x, scale, i, rest := x + Weigh(scale, b - 128), Weigh(scale, 128), i + 1, rest[1..];
    }
  }

  class SavedBinary {
    var content: seq<Byte>
    var lastUpdated: int
    var lastEtag: seq<Byte>

    ghost function Value(): Saved
      reads this
    {
      Saved(content, lastUpdated, lastEtag)
    }

    method MarshalBinary() returns (buffer: seq<Byte>)
      requires Representable(Value())
      ensures buffer == Marshal(Value())
    {
      buffer := [1];
      var length := WriteUvarint(|content|);
      buffer := buffer + length + content;
      buffer := buffer + BigEndian(TwosComplement(lastUpdated / NANOSECONDS) % TWO_64, 8);
      length := WriteUvarint(|lastEtag|);
      buffer := buffer + length + lastEtag;
    }

    /** Fills the fields while reading: a failure keeps the fields that were not reached. */
    method UnmarshalBinary(data: seq<Byte>) returns (err: Parsed<()>)
      modifies this
      ensures err.Parsed? <==> Unmarshal(data).Parsed?
      ensures err.Parsed? ==> Value() == Unmarshal(data).value && err.rest == Unmarshal(data).rest
      ensures err.Failed? ==> err.error == Unmarshal(data).error && lastEtag == old(lastEtag)
      ensures data == [] || ReadUvarint(data[1..], 0).Failed? ==> content == old(content)
      ensures data == [] || ReadBlock(data[1..]).Failed? ==> lastUpdated == old(lastUpdated)
      ensures data != [] && ReadBlock(data[1..]).Parsed? ==>
                var block := ReadBlock(data[1..]);
                && content == block.value
                && lastUpdated == if ReadInt64(block.rest).Parsed? then ReadInt64(block.rest).value * NANOSECONDS
                                  else old(lastUpdated)
    {
      if data == [] { return Failed(Eof); }
      var length := ReadUvarintBytes(data[1..]);
      if length.Failed? { return Failed(length.error); }
      if length.value >= TWO_63 { return Failed(LengthOutOfRange); }
      if length.value > |length.rest| {
        content := length.rest + seq(length.value - |length.rest|, _ => 0);
        return Failed(if length.rest == [] then Eof else UnexpectedEof);
      }
      content := length.rest[..length.value];
      var rest := length.rest[length.value..];
      var time := ReadInt64(rest);
      if time.Failed? { return Failed(time.error); }
      lastUpdated := time.value * NANOSECONDS;
      length := ReadUvarintBytes(time.rest);
      if length.Failed? { return Failed(length.error); }
      var etag := ReadFull(length.rest, length.value);
      if etag.Failed? { return Failed(etag.error); }
      lastEtag := etag.value;
      return Parsed((), etag.rest);
    }
  }
}
