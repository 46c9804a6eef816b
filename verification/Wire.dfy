/** The bytes the broker and the manager client exchange: little-endian integers, responses, list records. */
module Wire {
  import opened Arithmetic
  import opened CStrings
  import opened Sizes

  const UINT32_RANGE: nat := 0x1_0000_0000
  const LIST_RECORD_SIZE: nat := 58

  // ---------- Integers in memory ----------

  function Power256(n: nat): (p: nat)
    ensures p > 0
  {
    if n == 0 then 1 else 256 * Power256(n - 1)
  }

  /** The `n` bytes of an unsigned integer, lowest first. */
  function LittleEndian(x: nat, n: nat): (bytes: seq<Byte>)
    ensures |bytes| == n
  {
    if n == 0 then [] else [(x % 256) as Byte] + LittleEndian(x / 256, n - 1)
  }

  function Value(bytes: seq<Byte>): nat {
    if bytes == [] then 0 else bytes[0] as nat + 256 * Value(bytes[1..])
  }

  lemma {:induction false} LittleEndianRoundTrip(x: nat, n: nat)
    requires x < Power256(n)
    ensures Value(LittleEndian(x, n)) == x
  {
    if n > 0 {
      LittleEndianRoundTrip(x / 256, n - 1);
      assert LittleEndian(x, n)[1..] == LittleEndian(x / 256, n - 1);
    }
  }

  /** Byte `k` of an integer in memory is its digit of weight 256^k. */
  lemma {:induction false} ByteOf(x: nat, n: nat, k: nat)
    requires k < n
    ensures LittleEndian(x, n)[k] as nat == x / Power256(k) % 256
  {
    if k > 0 {
      ByteOf(x / 256, n - 1, k - 1);
      DivideTwice(x, Power256(k - 1));
    }
  }

  lemma DivideTwice(x: nat, p: nat)
    requires p > 0
    ensures x / 256 / p == x / (256 * p)
  {
    var q, r := x / 256, x % 256;
    var s, u := q / p, q % p;
    assert x == 256 * (s * p + u) + r == (256 * p) * s + (256 * u + r);
    assert 0 <= 256 * u + r < 256 * p;
    ModOf(x, 256 * p, s, 256 * u + r);
  }

  lemma Powers()
    ensures Power256(4) == UINT32_RANGE && Power256(8) == SIZE_T_RANGE
  {
    assert Power256(2) == 0x1_0000;
    assert Power256(4) == UINT32_RANGE;
    assert Power256(6) == 0x1_0000_0000_0000;
    assert Power256(8) == SIZE_T_RANGE;
  }

  // ---------- The response to a create or remove request ----------

  predicate IsInt32(x: int) {
    -0x8000_0000 <= x < 0x8000_0000
  }

  /** The int32_t with the same low 32 bits. */
  function Int32(x: int): (y: int)
    ensures IsInt32(y)
  {
    (x + 0x8000_0000) % UINT32_RANGE - 0x8000_0000
  }

  lemma Int32Congruent(x: int, k: int)
    ensures Int32(x + UINT32_RANGE * k) == Int32(x)
  {
  }

  /** Shifting in a byte in 32-bit arithmetic loses nothing of the low 32 bits. */
  lemma Int32Step(v: int, b: int)
    ensures Int32(Int32(Int32(v) * 256) + b) == Int32(v * 256 + b)
  {
    var q := (v + 0x8000_0000) / UINT32_RANGE;
    assert Int32(v) * 256 == v * 256 + UINT32_RANGE * (-256 * q);
    Int32Congruent(v * 256, -256 * q);
    var w := v * 256;
    var r := (w + 0x8000_0000) / UINT32_RANGE;
    assert Int32(w) + b == w + b + UINT32_RANGE * (-r);
    Int32Congruent(w + b, -r);
  }

  /** Type, return code, error message, as the broker copies them into its buffer. */
  function EncodeResponse(responseType: Byte, returnCode: int, message: seq<Byte>): seq<Byte>
    requires |message| == MESSAGE_LEN
  {
    [responseType] + LittleEndian(returnCode % UINT32_RANGE, 4) + message
  }

  /** getResponse: the return code is rebuilt byte by byte, highest first. */
  method GetResponse(response: seq<Byte>) returns (ret: int, returnCode: int)
    requires |response| >= 5
    ensures returnCode == Int32(Value(response[1..5]))
    ensures ret == if returnCode < 0 then -1 else 0
  {
    returnCode := 0;
    var i := 4;
    while i >= 1
      invariant 0 <= i <= 4
      invariant returnCode == Int32(Value(response[i + 1..5]))
    {
      Int32Step(Value(response[i + 1..5]), response[i] as int);
      returnCode := Int32(returnCode * 256);
      returnCode := Int32(returnCode + response[i] as int);
      assert response[i..5][1..] == response[i + 1..5];
      i := i - 1;
    }
    ret := if returnCode < 0 then -1 else 0;
  }

  /** The client decodes exactly the return code the broker sent, negative ones included. */
  lemma ResponseRoundTrip(responseType: Byte, returnCode: int, message: seq<Byte>)
    requires |message| == MESSAGE_LEN && IsInt32(returnCode)
    ensures var r := EncodeResponse(responseType, returnCode, message);
            |r| == 5 + MESSAGE_LEN && Int32(Value(r[1..5])) == returnCode
  {
    Powers();
    LittleEndianRoundTrip(returnCode % UINT32_RANGE, 4);
    assert EncodeResponse(responseType, returnCode, message)[1..5] == LittleEndian(returnCode % UINT32_RANGE, 4);
  }

  /** The type comes first, then the code, lowest byte first, then the message. */
  lemma ResponseLayout(responseType: Byte, returnCode: int, message: seq<Byte>)
    requires |message| == MESSAGE_LEN
    ensures var r := EncodeResponse(responseType, returnCode, message);
            && |r| == 1029 && r[0] == responseType && r[5..] == message
            && forall k | 0 <= k < 4 :: r[1 + k] as nat == returnCode % 0x1_0000_0000 / Power256(k) % 256
  {
    forall k | 0 <= k < 4
      ensures EncodeResponse(responseType, returnCode, message)[1 + k] as nat == returnCode % 0x1_0000_0000 / Power256(k) % 256
    {
      ByteOf(returnCode % UINT32_RANGE, 4, k);
    }
  }

  // ---------- Requests and messages ----------

  const PIPE_LEN: nat := 256

  /** What a client writes to the register pipe: a code, the name of its own pipe, and a box. */
  function EncodeRequest(code: Byte, pipe: CString, name: BoxName): seq<Byte>
    requires |pipe| < PIPE_LEN
  {
    [code] + pipe + seq(PIPE_LEN - |pipe|, _ => NUL) + NameField(name)
  }

  /** The broker takes the code from the first byte, the pipe from byte 1 on and the box from byte 257 on. */
  lemma RequestRoundTrip(code: Byte, pipe: CString, name: BoxName)
    requires |pipe| < PIPE_LEN
    ensures var r := EncodeRequest(code, pipe, name);
            |r| == 289 && r[0] == code && StringIn(r[1..]) == pipe && StringIn(r[257..]) == name
  {
    var r := EncodeRequest(code, pipe, name);
    StrLenIs(r[1..], |pipe|);
    assert r[1..][..|pipe|] == pipe;
    StrLenIs(r[257..], |name|);
    assert r[257..][..|name|] == name;
  }

  /** What the publisher writes for a line: 9, and the line without the last byte of its buffer. */
  function Publication(line: seq<Byte>): seq<Byte>
    requires |line| == MESSAGE_LEN
  {
    [9] + line[..MESSAGE_LEN - 1] + [NUL]
  }

  /** What a subscriber gets for a message: 10, and the message. */
  function Delivery(message: seq<Byte>): seq<Byte> {
    [10] + message
  }

  /** The subscriber prints the line that was typed, whatever lies behind its terminator. */
  lemma PrintedIsTyped(line: seq<Byte>)
    requires |line| == MESSAGE_LEN && line[MESSAGE_LEN - 1] == NUL
    ensures var sent := Publication(line);
            && |sent| == 1025 && sent[0] == 9
            && var delivered := Delivery(sent[1..]);
               |delivered| == 1025 && delivered[0] == 10 && StringIn(delivered[1..]) == StringIn(line)
  {
    assert Publication(line)[1..] == line;
    assert Delivery(line)[1..] == line;
  }

  // ---------- List records ----------

  datatype BoxInfo = BoxInfo(name: BoxName, size: nat, pubNum: nat, subNum: nat) {
    predicate Valid() {
      size < SIZE_T_RANGE && pubNum < SIZE_T_RANGE && subNum < SIZE_T_RANGE
    }
  }

  /** file_name, cleared and then filled by strcpy. */
  function NameField(name: BoxName): seq<Byte> {
    name + seq(BOX_LEN - |name|, _ => NUL)
  }

  function Record(last: bool, info: BoxInfo): (r: seq<Byte>)
    ensures |r| == LIST_RECORD_SIZE && r[1] == if last then 1 else 0
  {
    [8, if last then 1 else 0] + NameField(info.name)
    + LittleEndian(info.size, 8) + LittleEndian(info.pubNum, 8) + LittleEndian(info.subNum, 8)
  }

  /** The code 8, the flag, the name with its padding, and the three counters, each lowest byte first. */
  lemma RecordLayout(last: bool, info: BoxInfo)
    ensures var r := Record(last, info);
            && |r| == 58 && r[0] == 8 && r[1] == (if last then 1 else 0)
            && r[2..2 + |info.name|] == info.name && (forall k | 2 + |info.name| <= k < 34 :: r[k] == NUL)
            && r[34..42] == LittleEndian(info.size, 8)
            && r[42..50] == LittleEndian(info.pubNum, 8) && r[50..58] == LittleEndian(info.subNum, 8)
  {
    hide LittleEndian;
    var r := Record(last, info);
    Slices([8, if last then 1 else 0], NameField(info.name),
           LittleEndian(info.size, 8), LittleEndian(info.pubNum, 8), LittleEndian(info.subNum, 8));
    assert r[2..34] == NameField(info.name);
    assert forall k | 2 <= k < 34 :: r[k] == r[2..34][k - 2];
    assert r[2..2 + |info.name|] == r[2..34][..|info.name|];
  }

  /** What the client prints of a record. */
  function Parse(r: seq<Byte>): (CString, nat, nat, nat)
    requires |r| == LIST_RECORD_SIZE
  {
    (StringIn(r[2..34]), Value(r[34..42]), Value(r[42..50]), Value(r[50..58]))
  }

  lemma Slices(head: seq<Byte>, name: seq<Byte>, size: seq<Byte>, pubNum: seq<Byte>, subNum: seq<Byte>)
    requires |head| == 2 && |name| == BOX_LEN && |size| == |pubNum| == |subNum| == 8
    ensures var r := head + name + size + pubNum + subNum;
            r[2..34] == name && r[34..42] == size && r[42..50] == pubNum && r[50..58] == subNum
  {
  }

  lemma RecordRoundTrip(last: bool, info: BoxInfo)
    requires info.Valid()
    ensures Parse(Record(last, info)) == (info.name, info.size, info.pubNum, info.subNum)
  {
    hide LittleEndian, Value, Power256;
    var r := Record(last, info);
    Powers();
    LittleEndianRoundTrip(info.size, 8);
    LittleEndianRoundTrip(info.pubNum, 8);
    LittleEndianRoundTrip(info.subNum, 8);
    Slices([8, if last then 1 else 0], NameField(info.name),
           LittleEndian(info.size, 8), LittleEndian(info.pubNum, 8), LittleEndian(info.subNum, 8));
    StrLenIs(NameField(info.name), |info.name|);
    assert NameField(info.name)[..|info.name|] == info.name;
  }
}
