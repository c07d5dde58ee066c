/**
  24-bit words and chunked I2C transfers of amplifier/tfa9887.c. The amplifier's memory port CF_MEM
  is one stream of bytes that goes on from one transfer to the next.
  */
module Tfa9887 {
  import opened Basics

  type Byte = x: int | 0 <= x < 0x100
  type UInt32 = x: int | 0 <= x < 0x1_0000_0000

  const MAX_I2C_LENGTH := 254
  const CF_MEM: Byte := 0x72
  const LIMIT := 0x80_0000   // 1 << 23

  // ---------------------------------------------------------------- words

  function Clamp(x: int): (r: int)
    ensures x > 8388607 ==> r == 8388607
    ensures x < -8388608 ==> r == -8388608
    ensures -8388608 <= x <= 8388607 ==> r == x
  {
    if x >= LIMIT then LIMIT - 1 else if x < -LIMIT then -LIMIT else x
  }

  /** The 24 bits data2bytes writes for a word. */
  function Bits(x: Int32): (d: nat)
    ensures d < 0x100_0000
  {
    if x >= 0 then (if x < LIMIT - 1 then x else LIMIT - 1)
    else
      var magnitude: int := -(x as int);
      0x100_0000 - (if magnitude < LIMIT then magnitude else LIMIT)
  }

  /** Its three bytes, high byte first: (d >> 16) & 0xff, (d >> 8) & 0xff and d & 0xff. */
  function Split(d: nat): seq<Byte>
    requires d < 0x100_0000
  {
    [d / 0x1_0000 % 0x100, d / 0x100 % 0x100, d % 0x100]
  }

  /** b0 << 16 | b1 << 8 | b2, where no bits overlap. */
  function Join(b0: Byte, b1: Byte, b2: Byte): (d: nat)
    ensures d < 0x100_0000
  {
    b0 * 0x1_0000 + b1 * 0x100 + b2
  }

  /** On 32-bit words: the shifted bytes share no bits, so or-ing them adds them, and the shifts and
      masks of data2bytes take them apart again. */
  lemma OrIsSum(b0: bv32, b1: bv32, b2: bv32)
    requires b0 < 0x100 && b1 < 0x100 && b2 < 0x100
    ensures (b0 << 16) | (b1 << 8) | b2 == b0 * 0x1_0000 + b1 * 0x100 + b2
    ensures var d := (b0 << 16) | (b1 << 8) | b2;
            (d >> 16) & 0xff == b0 && (d >> 8) & 0xff == b1 && d & 0xff == b2
    ensures b0 & 0x80 != 0 <==> b0 >= 0x80
  {
  }

  /** What bytes2data makes of three bytes: the sign bit of the first is extended to 32 bits. */
  function Extend(b0: Byte, b1: Byte, b2: Byte): UInt32 {
    var d := Join(b0, b1, b2);
    if b0 >= 0x80 then (0 - (0x100_0000 - d)) % 0x1_0000_0000 else d
  }

  function Pack(words: seq<Int32>): (bytes: seq<Byte>)
    ensures |bytes| == 3 * |words|
  {
    if words == [] then [] else Split(Bits(words[0])) + Pack(words[1..])
  }

  function Unpack(bytes: seq<Byte>): (words: seq<UInt32>)
    ensures |words| == |bytes| / 3
  {
    if |bytes| < 3 then [] else [Extend(bytes[0], bytes[1], bytes[2])] + Unpack(bytes[3..])
  }

  lemma JoinOfSplit(d: nat)
    requires d < 0x100_0000
    ensures var s := Split(d); Join(s[0], s[1], s[2]) == d
    ensures Split(d)[0] >= 0x80 <==> d >= LIMIT
  {
  }

  lemma SplitOfJoin(b0: Byte, b1: Byte, b2: Byte)
    ensures Split(Join(b0, b1, b2)) == [b0, b1, b2]
  {
    Quotients(b0, b1, b2);
  }

  lemma Quotients(b0: Byte, b1: Byte, b2: Byte)
    ensures Join(b0, b1, b2) / 0x1_0000 == b0
    ensures Join(b0, b1, b2) / 0x100 == b0 * 0x100 + b1
    ensures (b0 * 0x100 + b1) % 0x100 == b1 && b0 % 0x100 == b0
    ensures Join(b0, b1, b2) % 0x100 == b2
  {
  }

  lemma WordRoundTrip(x: Int32)
    requires x != -0x8000_0000
    ensures var s := Split(Bits(x)); ToInt32(Extend(s[0], s[1], s[2])) == Clamp(x)
  {
    var s := Split(Bits(x));
    JoinOfSplit(Bits(x));
    ExtendIsSigned(s[0], s[1], s[2]);
  }

  /** The k-th three bytes, joined. */
  function JoinAt(bytes: seq<Byte>, k: nat): nat
    requires 3 * k + 2 < |bytes|
  {
    Join(bytes[3 * k], bytes[3 * k + 1], bytes[3 * k + 2])
  }

  lemma JoinFirst(head: seq<Byte>, tail: seq<Byte>)
    requires |head| == 3
    ensures JoinAt(head + tail, 0) == Join(head[0], head[1], head[2])
    ensures forall k :: 0 <= k && 3 * k + 2 < |tail| ==> JoinAt(head + tail, k + 1) == JoinAt(tail, k)
  {
  }

  lemma {:induction false} PackedWord(words: seq<Int32>, i: nat)
    requires i < |words|
    ensures JoinAt(Pack(words), i) == Bits(words[i])
  {
    JoinFirst(Split(Bits(words[0])), Pack(words[1..]));
    if i == 0 {
      JoinOfSplit(Bits(words[0]));
    } else {
      PackedWord(words[1..], i - 1);
      assert JoinAt(Pack(words), (i - 1) + 1) == JoinAt(Pack(words[1..]), i - 1);
    }
  }

  /** A word is stored high byte first, in two's complement. */
  lemma PackedBytes(words: seq<Int32>, i: nat)
    requires i < |words| && words[i] != -0x8000_0000
    ensures var bytes, x := Pack(words), Clamp(words[i]);
            var b0: int, b1: int, b2: int := bytes[3 * i], bytes[3 * i + 1], bytes[3 * i + 2];
            b0 * 65536 + b1 * 256 + b2 == if x < 0 then x + 16777216 else x
  {
    PackedWord(words, i);
    BitsOfClamped(words[i]);
  }

  lemma BitsOfClamped(x: Int32)
    requires x != -0x8000_0000
    ensures Bits(x) == if Clamp(x) < 0 then Clamp(x) + 16777216 else Clamp(x)
  {
  }

  lemma {:induction false} UnpackedAt(bytes: seq<Byte>, i: nat)
    requires 3 * i + 2 < |bytes|
    ensures Unpack(bytes)[i] == Extend(bytes[3 * i], bytes[3 * i + 1], bytes[3 * i + 2])
  {
    if i > 0 {
      UnpackedAt(bytes[3..], i - 1);
    }
  }

  /** Three bytes are read high byte first; a set sign bit fills the upper byte of the 32. */
  lemma UnpackedWord(bytes: seq<Byte>, i: nat)
    requires 3 * i + 2 < |bytes|
    ensures var b0: int, b1: int, b2: int := bytes[3 * i], bytes[3 * i + 1], bytes[3 * i + 2];
            Unpack(bytes)[i] == b0 * 65536 + b1 * 256 + b2 + if b0 >= 128 then 4278190080 else 0
  {
    UnpackedAt(bytes, i);
    SignFills(bytes[3 * i], bytes[3 * i + 1], bytes[3 * i + 2]);
  }

  lemma SignFills(b0: Byte, b1: Byte, b2: Byte)
    ensures Extend(b0, b1, b2) == b0 * 65536 + b1 * 256 + b2 + if b0 >= 128 then 4278190080 else 0
  {
  }

  /** Packed and unpacked, each word comes back clamped to 24 bits. INT32_MIN, which C cannot negate, is
      out. */
  lemma {:induction false} PackThenUnpack(words: seq<Int32>)
    requires -0x8000_0000 !in words
    ensures |Unpack(Pack(words))| == |words|
    ensures forall i :: 0 <= i < |words| ==> ToInt32(Unpack(Pack(words))[i]) == Clamp(words[i])
  {
    if words != [] {
      var s := Split(Bits(words[0]));
      WordRoundTrip(words[0]);
      PackThenUnpack(words[1..]);
      assert Pack(words)[3..] == Pack(words[1..]);
      assert Unpack(Pack(words)) == [Extend(s[0], s[1], s[2])] + Unpack(Pack(words[1..]));
    }
  }

  lemma ExtendIsSigned(b0: Byte, b1: Byte, b2: Byte)
    ensures ToInt32(Extend(b0, b1, b2)) == Join(b0, b1, b2) - if b0 >= 0x80 then 0x100_0000 else 0
    ensures b0 >= 0x80 <==> Join(b0, b1, b2) >= LIMIT
  {
  }

  lemma BitsOfSigned(d: nat, x: Int32)
    requires d < 0x100_0000 && x == d - if d >= LIMIT then 0x100_0000 else 0
    ensures Bits(x) == d
  {
  }

  lemma BytesRoundTrip(b0: Byte, b1: Byte, b2: Byte)
    ensures Split(Bits(ToInt32(Extend(b0, b1, b2)))) == [b0, b1, b2]
  {
    ExtendIsSigned(b0, b1, b2);
    BitsOfSigned(Join(b0, b1, b2), ToInt32(Extend(b0, b1, b2)));
    SplitOfJoin(b0, b1, b2);
  }

  /** The words of `bytes`, read as signed. */
  function Signed(words: seq<UInt32>): (r: seq<Int32>)
    ensures |r| == |words|
  {
    seq(|words|, i requires 0 <= i < |words| => ToInt32(words[i]))
  }

  /** Unpacked and packed, every string of whole words comes back as it was. */
  lemma {:induction false} UnpackThenPack(bytes: seq<Byte>)
    requires |bytes| % 3 == 0
    ensures Pack(Signed(Unpack(bytes))) == bytes
  {
    if bytes != [] {
      BytesRoundTrip(bytes[0], bytes[1], bytes[2]);
      UnpackThenPack(bytes[3..]);
      var words := Signed(Unpack(bytes));
      assert words[1..] == Signed(Unpack(bytes[3..]));
      assert bytes == [bytes[0], bytes[1], bytes[2]] + bytes[3..];
    }
  }

  /** data2bytes: `bytes` is filled from the front, three bytes a word. */
  method Data2Bytes(data: array<Int32>, numData: nat, bytes: array<Byte>)
    requires numData <= data.Length && 3 * numData <= bytes.Length && -0x8000_0000 !in data[..numData]
    modifies bytes
    ensures bytes[..3 * numData] == Pack(old(data[..numData]))
    ensures bytes[3 * numData..] == old(bytes[3 * numData..])
  {
    var i, k := 0, 0;
    ghost var words := data[..numData];
    assert words[..0] == [] && words[..numData] == words;
    while i < numData
      invariant 0 <= i <= numData && k == 3 * i && words == data[..numData]
      invariant bytes[..k] == Pack(words[..i])
      invariant bytes[3 * numData..] == old(bytes[3 * numData..])
    {
      PackNext(words, i);
      assert data[i] == words[i] && words[i] in words;
      StoreWord(bytes, k, data[i], 3 * numData);
      i, k := i + 1, k + 3;
    }
  }

  /** The body of the loop. */
  method StoreWord(bytes: array<Byte>, k: nat, x: Int32, ghost end: nat)
    requires k + 3 <= end <= bytes.Length && x != -0x8000_0000
    modifies bytes
    ensures bytes[..k + 3] == old(bytes[..k]) + Split(Bits(x))
    ensures bytes[end..] == old(bytes[end..])
  {
    var d: int;
    if x >= 0 {
      d := if x < LIMIT - 1 then x else LIMIT - 1;
    } else {
      var magnitude: int := -(x as int);
      d := 0x100_0000 - if magnitude < LIMIT then magnitude else LIMIT;
    }
    bytes[k] := d / 0x1_0000 % 0x100;
    bytes[k + 1] := d / 0x100 % 0x100;
    bytes[k + 2] := d % 0x100;
  }

  lemma PackNext(words: seq<Int32>, i: nat)
    requires i < |words|
    ensures Pack(words[..i + 1]) == Pack(words[..i]) + Split(Bits(words[i]))
  {
    PackLast(words[..i], words[i]);
    assert words[..i + 1] == words[..i] + [words[i]];
  }

  lemma {:induction false} PackLast(words: seq<Int32>, x: Int32)
    ensures Pack(words + [x]) == Pack(words) + Split(Bits(x))
  {
    if words == [] {
      assert [x][1..] == [] && [] + [x] == [x];
    } else {
      assert (words + [x])[1..] == words[1..] + [x];
      PackLast(words[1..], x);
    }
  }

  /** bytes2data: only whole words are read. */
  method Bytes2Data(bytes: array<Byte>, numBytes: nat, data: array<UInt32>)
    requires numBytes <= bytes.Length && numBytes / 3 <= data.Length
    modifies data
    ensures data[..numBytes / 3] == Unpack(bytes[..numBytes])
    ensures data[numBytes / 3..] == old(data[numBytes / 3..])
  {
    var numData := numBytes / 3;
    var i, k := 0, 0;
    ghost var all := bytes[..numBytes];
    assert data[..0] == [] && all[0..] == all;
    while i < numData
      invariant 0 <= i <= numData && k == 3 * i
      invariant data[..i] + Unpack(all[k..]) == Unpack(all) && all == bytes[..numBytes]
      invariant data[numBytes / 3..] == old(data[numBytes / 3..])
    {
      var d := LoadWord(bytes[k], bytes[k + 1], bytes[k + 2]);
      UnpackNext(data[..i], all, k);
      data[i] := d;
      assert data[..i + 1] == data[..i] + [d];
      i, k := i + 1, k + 3;
    }
  }

  /** The body of the loop. */
  method LoadWord(b0: Byte, b1: Byte, b2: Byte) returns (word: UInt32)
    ensures word == Extend(b0, b1, b2)
  {
    var high: int, middle: int, low: int := b0, b1, b2;
    var d := high * 0x1_0000 + middle * 0x100 + low;
    if high >= 0x80 {
      d := (0 - (0x100_0000 - d)) % 0x1_0000_0000;
    }
    return d;
  }

  lemma UnpackNext(done: seq<UInt32>, bytes: seq<Byte>, k: nat)
    requires k + 3 <= |bytes|
    ensures done + Unpack(bytes[k..])
            == done + [Extend(bytes[k], bytes[k + 1], bytes[k + 2])] + Unpack(bytes[k + 3..])
  {
    assert bytes[k..][3..] == bytes[k + 3..];
  }

  // ---------------------------------------------------------------- transfers

  function RoundDown(a: nat, n: nat): (r: nat)
    requires n > 0
    ensures r % n == 0 && r <= a < r + n
  {
    Multiples(a / n, n);
    a / n * n
  }

  lemma Multiples(q: nat, n: nat)
    requires n > 0
    ensures q * n % n == 0
  {
    var d, m := q * n / n, q * n % n;
    assert q * n == d * n + m;
    Difference(q, d, n);
    AtLeastOne(q - d, n);
  }

  lemma Difference(q: int, d: int, n: int)
    ensures (q - d) * n == q * n - d * n
  {
  }

  lemma AtLeastOne(e: int, n: nat)
    ensures e >= 1 ==> e * n >= n
    ensures e <= -1 ==> e * n <= 0 - n
  {
    if e >= 1 { Difference(e, 1, n); } else if e <= -1 { Difference(e, -1, n); }
  }

  /** For any alignment up to the longest transfer a chunk has room for an address and a byte. */
  lemma ChunkHasRoom(alignment: nat)
    requires 0 < alignment <= MAX_I2C_LENGTH
    ensures 2 <= RoundDown(MAX_I2C_LENGTH, alignment) <= MAX_I2C_LENGTH
  {
    var q := MAX_I2C_LENGTH / alignment;
    assert q >= 1;
    assert q * alignment <= MAX_I2C_LENGTH;
    if alignment == 1 {
    } else {
      assert q * alignment >= alignment;
    }
  }

  /** How many bytes go with the address in one transfer. */
  function Room(alignment: nat): (room: nat)
    requires 0 < alignment <= MAX_I2C_LENGTH
    ensures 0 < room < 254
    ensures (room + 1) % alignment == 0 && room + 1 <= 254 < room + 1 + alignment
  {
    ChunkHasRoom(alignment);
    RoundDown(MAX_I2C_LENGTH, alignment) - 1
  }

  /** The transfers that write `buf`: each is the address and at most `room` bytes. */
  function Commands(addr: Byte, buf: seq<Byte>, room: nat): seq<seq<Byte>>
    requires room > 0
  {
    if |buf| <= room then [[addr] + buf] else [[addr] + buf[..room]] + Commands(addr, buf[room..], room)
  }

  /** The stream of bytes the register `addr` gets from a sequence of transfers. */
  function Received(addr: Byte, transfers: seq<seq<Byte>>): seq<Byte> {
    if transfers == [] then [] else Payload(addr, transfers[0]) + Received(addr, transfers[1..])
  }

  function Payload(addr: Byte, transfer: seq<Byte>): seq<Byte> {
    if transfer != [] && transfer[0] == addr then transfer[1..] else []
  }

  lemma {:induction false} ReceivedJoins(addr: Byte, a: seq<seq<Byte>>, b: seq<seq<Byte>>)
    ensures Received(addr, a + b) == Received(addr, a) + Received(addr, b)
  {
    if a == [] {
      assert a + b == b;
    } else {
      assert (a + b)[1..] == a[1..] + b;
      ReceivedJoins(addr, a[1..], b);
    }
  }

  lemma ReceivedOne(addr: Byte, transfer: seq<Byte>)
    ensures Received(addr, [transfer]) == Payload(addr, transfer)
  {
    assert [transfer][1..] == [];
  }

  /** Written in chunks, the bytes arrive in order, none lost, in transfers no longer than the limit. */
  lemma {:induction false} CommandsDeliver(addr: Byte, buf: seq<Byte>, room: nat)
    requires room > 0
    ensures Received(addr, Commands(addr, buf, room)) == buf
    ensures forall t :: t in Commands(addr, buf, room) ==> 1 <= |t| <= room + 1 && t[0] == addr
    decreases |buf|
  {
    if |buf| <= room {
      ReceivedOne(addr, [addr] + buf);
      PayloadOfCommand(addr, buf);
    } else {
      var first, rest := [addr] + buf[..room], Commands(addr, buf[room..], room);
      CommandsDeliver(addr, buf[room..], room);
      ReceivedJoins(addr, [first], rest);
      ReceivedOne(addr, first);
      PayloadOfCommand(addr, buf[..room]);
      assert buf == buf[..room] + buf[room..];
    }
  }

  /** And in as few as the limit allows: every transfer but the last is full, and the last is not empty
      unless there is nothing to write. */
  lemma {:induction false} CommandsAreFull(addr: Byte, buf: seq<Byte>, room: nat)
    requires room > 0
    ensures var all := Commands(addr, buf, room);
            && all != [] && (forall i :: 0 <= i < |all| - 1 ==> |all[i]| == room + 1)
            && (buf != [] ==> |all[|all| - 1]| > 1)
    decreases |buf|
  {
    if |buf| > room {
      CommandsAreFull(addr, buf[room..], room);
    }
  }

  lemma PayloadOfCommand(addr: Byte, bytes: seq<Byte>)
    ensures Payload(addr, [addr] + bytes) == bytes
  {
  }

  /** The payload keeps a byte free for the address, so chunks rounded down to whole words do not carry
      whole words: a write of whole words is cut inside a word if and only if it takes more than one
      transfer. */
  lemma WordsCutIff(addr: Byte, buf: seq<Byte>)
    requires |buf| % 3 == 0
    ensures var room := Room(3);
            (forall t :: t in Commands(addr, buf, room) ==> (|t| - 1) % 3 == 0) <==> |buf| <= room
  {
    var room := Room(3);
    if |buf| > room {
      var first := [addr] + buf[..room];
      assert Commands(addr, buf, room)[0] == first;
      assert first in Commands(addr, buf, room) && (|first| - 1) % 3 == 2;
    }
  }

  /** The sizes of the transfers that read `len` bytes. */
  function Chunks(len: nat, chunkSize: nat): seq<nat>
    requires chunkSize > 0
  {
    if len <= chunkSize then [len] else [chunkSize] + Chunks(len - chunkSize, chunkSize)
  }

  /** Every read transfer but the last is a whole chunk, and the last is not empty unless nothing is read. */
  lemma {:induction false} ChunksAreFull(len: nat, chunkSize: nat)
    requires chunkSize > 0
    ensures var all := Chunks(len, chunkSize);
            && all != [] && (forall i :: 0 <= i < |all| - 1 ==> all[i] == chunkSize)
            && (len > 0 ==> all[|all| - 1] > 0)
  {
    if len > chunkSize {
      ChunksAreFull(len - chunkSize, chunkSize);
    }
  }

  lemma ChunksNext(done: seq<nat>, len: nat, chunkSize: nat, size: nat)
    requires chunkSize > 0 && size == if len < chunkSize then len else chunkSize
    ensures done + Chunks(len, chunkSize)
            == done + [size] + if size == len then [] else Chunks(len - size, chunkSize)
  {
  }

  lemma OneMore<T>(past: seq<T>, done: seq<T>, next: T, rest: seq<T>)
    ensures past + done + [next] == past + (done + [next])
    ensures done <= done + rest && |done + rest| == |done| + |rest|
    ensures done + [next] + [] == done + [next]
  {
  }

  function Sum(sizes: seq<nat>): nat {
    if sizes == [] then 0 else sizes[0] + Sum(sizes[1..])
  }

  /** Read in chunks rounded down to whole words, no word is cut and nothing is read beyond the length. */
  lemma {:induction false} ChunksAreWhole(len: nat, chunkSize: nat)
    requires chunkSize > 0
    ensures Sum(Chunks(len, chunkSize)) == len
    ensures forall size :: size in Chunks(len, chunkSize) ==>
              size <= chunkSize && (len % 3 == 0 && chunkSize % 3 == 0 ==> size % 3 == 0)
  {
    if len > chunkSize {
      ChunksAreWhole(len - chunkSize, chunkSize);
      WholeWordsLeft(len, chunkSize);
    }
  }

  lemma WholeWordsLeft(len: nat, chunkSize: nat)
    ensures len % 3 == 0 && chunkSize % 3 == 0 ==> (len - chunkSize) % 3 == 0
  {
  }

  /** What reading `size` bytes of the port gives, `idle` beyond what was stored there. */
  function Window(stored: seq<Byte>, idle: nat -> Byte, from: nat, size: nat): (s: seq<Byte>)
    ensures |s| == size
  {
    seq(size, i requires 0 <= i < size => if from + i < |stored| then stored[from + i] else idle(from + i))
  }

  lemma WindowsJoin(stored: seq<Byte>, idle: nat -> Byte, from: nat, a: nat, b: nat)
    ensures Window(stored, idle, from, a) + Window(stored, idle, from + a, b) == Window(stored, idle, from, a + b)
  {
  }

  lemma WindowOnLast(past: seq<Byte>, bytes: seq<Byte>, idle: nat -> Byte)
    ensures Window(past + bytes, idle, |past|, |bytes|) == bytes
  {
  }

  /** The driver behind the file descriptor: the transfers written so far and the sizes of those read.
      The port CF_MEM gives back the bytes it was sent; `fails` is what the n-th ioctl returns. */
  class Amplifier {
    const fails: nat -> int
    const idle: nat -> Byte
    var calls: nat
    var written: seq<seq<Byte>>
    var readSizes: seq<nat>
    var position: nat

    constructor (fails: nat -> int, idle: nat -> Byte)
      ensures this.fails == fails && this.idle == idle && calls == 0 && position == 0
      ensures written == [] && readSizes == []
    {
      this.fails, this.idle := fails, idle;
      calls, position, written, readSizes := 0, 0, [], [];
    }

    method WriteConfig(buffer: seq<Byte>) returns (rc: int)
      modifies this`calls, this`written
      ensures calls == old(calls) + 1 && rc == fails(old(calls))
      ensures written == if rc == 0 then old(written) + [buffer] else old(written)
    {
      rc := fails(calls);
      calls := calls + 1;
      if rc == 0 {
        written := written + [buffer];
      }
    }

    method ReadConfig(size: nat) returns (rc: int, buffer: seq<Byte>)
      modifies this`calls, this`readSizes, this`position
      ensures calls == old(calls) + 1 && rc == fails(old(calls))
      ensures rc == 0 ==> buffer == Window(Stored(), idle, old(position), size) && position == old(position) + size
      ensures rc != 0 ==> position == old(position)
      ensures readSizes == if rc == 0 then old(readSizes) + [size] else old(readSizes)
    {
      rc := fails(calls);
      calls := calls + 1;
      buffer := [];
      if rc == 0 {
        buffer := Window(Stored(), idle, position, size);
        position := position + size;
        readSizes := readSizes + [size];
      }
    }

    /** What CF_MEM was sent so far. */
    function Stored(): seq<Byte>
      reads this`written
    {
      Received(CF_MEM, written)
    }

    /** tfa9887_write. If every transfer succeeds they are exactly those of Commands; otherwise the ones
        before the first that failed. */
    method Write(addr: int, buf: seq<Byte>, alignment: nat) returns (rc: int, ghost sent: seq<seq<Byte>>)
      requires 0 < alignment <= MAX_I2C_LENGTH
      modifies this`calls, this`written
      ensures written == old(written) + sent
      ensures var all := Commands(addr % 0x100, buf, Room(alignment));
              sent <= all && (rc == 0 <==> sent == all)
      ensures calls == old(calls) + |sent| + if rc == 0 then 0 else 1
      ensures rc != 0 ==> rc == fails(calls - 1)
    {
      ChunkHasRoom(alignment);
      var chunkSize := RoundDown(MAX_I2C_LENGTH, alignment);
      var bytesWritten := 0;
      sent := [];
      assert buf[0..] == buf;
      while true
        invariant 0 <= bytesWritten <= |buf| && written == old(written) + sent
        invariant Commands(addr % 0x100, buf, chunkSize - 1)
               == sent + Commands(addr % 0x100, buf[bytesWritten..], chunkSize - 1)
        invariant calls == old(calls) + |sent|
        decreases |buf| - bytesWritten
      {
        var toWrite := if |buf| - bytesWritten < chunkSize - 1 then |buf| - bytesWritten else chunkSize - 1;
        var buffer := [addr % 0x100] + buf[bytesWritten..bytesWritten + toWrite];
        CommandsNext(sent, addr % 0x100, buf, chunkSize - 1, bytesWritten, toWrite);
        OneMore(old(written), sent, buffer, Commands(addr % 0x100, buf[bytesWritten..], chunkSize - 1));
        rc := WriteConfig(buffer);
        if rc != 0 { return; }
        sent := sent + [buffer];
        bytesWritten := bytesWritten + toWrite;
        if bytesWritten >= |buf| { return; }
      }
    }

    /** tfa9887_read: one transfer with the address, then chunks until `len` bytes are there. If every
        transfer succeeds their sizes are exactly those of Chunks; otherwise those before the failure. */
    method Read(addr: int, buf: array<Byte>, len: nat, alignment: nat) returns (rc: int, ghost sizes: seq<nat>)
      requires 0 < alignment <= MAX_I2C_LENGTH && len <= buf.Length
      modifies this`calls, this`written, this`readSizes, this`position, buf
      ensures Stored() == old(Stored())
      ensures rc == 0 ==> buf[..len] == Window(Stored(), idle, old(position), len) && position == old(position) + len
      ensures rc == 0 ==> written == old(written) + [[addr % 0x100]]
      ensures buf[len..] == old(buf[len..])
      ensures readSizes == old(readSizes) + sizes
      ensures sizes <= Chunks(len, Room(alignment) + 1) && (rc == 0 ==> sizes == Chunks(len, Room(alignment) + 1))
      ensures rc != 0 ==> calls > old(calls) && rc == fails(calls - 1)
    {
      ChunkHasRoom(alignment);
      var chunkSize := RoundDown(MAX_I2C_LENGTH, alignment);
      sizes := [];
      rc := SendAddress(addr);
      if rc != 0 { return; }
      rc, sizes := ReadChunks(buf, len, chunkSize);
    }

    /** The loop of tfa9887_read. */
    method ReadChunks(buf: array<Byte>, len: nat, chunkSize: nat) returns (rc: int, ghost sizes: seq<nat>)
      requires 0 < chunkSize && len <= buf.Length
      modifies this`calls, this`readSizes, this`position, buf
      ensures rc == 0 ==> buf[..len] == Window(Stored(), idle, old(position), len) && position == old(position) + len
      ensures buf[len..] == old(buf[len..])
      ensures readSizes == old(readSizes) + sizes
      ensures sizes <= Chunks(len, chunkSize) && (rc == 0 ==> sizes == Chunks(len, chunkSize))
      ensures calls > old(calls) && (rc != 0 ==> rc == fails(calls - 1))
    {
      ghost var start := position;
      sizes := [];
      var bytesRead := 0;
      while true
        invariant 0 <= bytesRead <= len && position == start + bytesRead
        invariant buf[..bytesRead] == Window(Stored(), idle, start, bytesRead)
        invariant buf[len..] == old(buf[len..]) && calls >= old(calls)
        invariant readSizes == old(readSizes) + sizes
        invariant Chunks(len, chunkSize) == sizes + Chunks(len - bytesRead, chunkSize)
        decreases len - bytesRead
      {
        var size := if len - bytesRead < chunkSize then len - bytesRead else chunkSize;
        ChunksNext(sizes, len - bytesRead, chunkSize, size);
        OneMore(old(readSizes), sizes, size, Chunks(len - bytesRead, chunkSize));
        rc := ReadChunk(buf, bytesRead, size, start, len);
        if rc != 0 { return; }
        sizes := sizes + [size];
        bytesRead := bytesRead + size;
        if bytesRead >= len { return; }
      }
    }

    /** One read transfer, copied into the buffer behind those before it. */
    method ReadChunk(buf: array<Byte>, at: nat, size: nat, ghost start: nat, ghost end: nat) returns (rc: int)
      requires at + size <= end <= buf.Length
      requires buf[..at] == Window(Stored(), idle, start, at) && position == start + at
      modifies this`calls, this`readSizes, this`position, buf
      ensures calls == old(calls) + 1 && rc == fails(old(calls))
      ensures rc == 0 ==>
                buf[..at + size] == Window(Stored(), idle, start, at + size)
                && position == start + at + size && readSizes == old(readSizes) + [size]
      ensures rc != 0 ==> position == old(position) && readSizes == old(readSizes)
      ensures buf[end..] == old(buf[end..])
    {
      WindowsJoin(Stored(), idle, start, at, size);
      var buffer;
      rc, buffer := ReadConfig(size);
      if rc == 0 {
        CopyInto(buf, at, buffer);
        assert buf[..at + size] == old(buf[..at]) + buffer;
      }
    }

    /** A transfer of the address alone, which stores nothing. */
    method SendAddress(addr: int) returns (rc: int)
      modifies this`calls, this`written
      ensures calls == old(calls) + 1 && rc == fails(old(calls)) && Stored() == old(Stored())
      ensures written == if rc == 0 then old(written) + [[addr % 0x100]] else old(written)
    {
      ReceivedJoins(CF_MEM, written, [[addr % 0x100]]);
      ReceivedOne(CF_MEM, [addr % 0x100]);
      rc := WriteConfig([addr % 0x100]);
    }

    /** The bytes are stored behind what the port had already. */
    method Store(bytes: seq<Byte>) returns (rc: int)
      modifies this`calls, this`written
      ensures rc == 0 ==> Stored() == old(Stored()) + bytes
    {
      ghost var sent;
      rc, sent := Write(CF_MEM, bytes, 3);
      ReceivedJoins(CF_MEM, old(written), sent);
      CommandsDeliver(CF_MEM, bytes, Room(3));
    }

    /** Words packed, written to the port in chunks, read back from it in chunks and unpacked come back
        clamped to 24 bits, when the port is read from where it was written. */
    method WordsSurviveTransfer(words: array<Int32>) returns (rc: int, out: array<UInt32>)
      requires position == |Stored()| && -0x8000_0000 !in words[..]
      modifies this
      ensures fresh(out) && out.Length == words.Length
      ensures rc == 0 ==> forall i :: 0 <= i < words.Length ==> ToInt32(out[i]) == Clamp(words[i])
    {
      var n := words.Length;
      out := new UInt32[n];
      var bytes := new Byte[3 * n];
      Data2Bytes(words, n, bytes);
      ghost var packed := Pack(words[..]);
      assert words[..n] == words[..] && bytes[..3 * n] == bytes[..];
      ghost var past := Stored();
      rc := Store(bytes[..]);
      if rc != 0 { return; }
      WindowOnLast(past, packed, idle);
      var mem := new Byte[3 * n];
      ghost var sizes;
      rc, sizes := Read(CF_MEM, mem, 3 * n, 3);
      if rc != 0 { return; }
      UnpackInto(mem, out, words[..]);
    }
  }

  method UnpackInto(mem: array<Byte>, out: array<UInt32>, ghost words: seq<Int32>)
    requires -0x8000_0000 !in words && mem[..] == Pack(words) && out.Length == |words|
    modifies out
    ensures forall i :: 0 <= i < |words| ==> ToInt32(out[i]) == Clamp(words[i])
  {
    PackThenUnpack(words);
    assert mem[..mem.Length] == mem[..];
    Bytes2Data(mem, mem.Length, out);
    assert out[..] == Unpack(Pack(words));
  }

  /** The next `n` bytes of `buf` from `at` make one transfer; then come the others, if any. */
  lemma CommandsNext(done: seq<seq<Byte>>, addr: Byte, buf: seq<Byte>, room: nat, at: nat, n: nat)
    requires room > 0 && at <= |buf| && n == if |buf| - at < room then |buf| - at else room
    ensures Commands(addr, buf[at..], room) != []
    ensures done + Commands(addr, buf[at..], room)
            == done + [[addr] + buf[at..at + n]] + if at + n == |buf| then [] else Commands(addr, buf[at + n..], room)
  {
    assert buf[at..][..n] == buf[at..at + n] && buf[at..][n..] == buf[at + n..];
    if at + n == |buf| {
      assert buf[at..at + n] == buf[at..];
    }
  }

  /** memcpy */
  method CopyInto(buf: array<Byte>, at: nat, bytes: seq<Byte>)
    requires at + |bytes| <= buf.Length
    modifies buf
    ensures forall i :: 0 <= i < buf.Length ==>
              buf[i] == if at <= i < at + |bytes| then bytes[i - at] else old(buf[i])
  {
    for i := 0 to |bytes|
      invariant forall j :: 0 <= j < buf.Length ==>
                  buf[j] == if at <= j < at + i then bytes[j - at] else old(buf[j])
    {
      buf[at + i] := bytes[i];
    }
  }
}
