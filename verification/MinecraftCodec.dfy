/** The wire codec of the on-demand gateway (cmd/hogs-agent/gateway.go).

    Methods read from a Reader as the code does; the functions Decode... say what they must
    find there.  Five groups of seven bits stay below 2^35, so no int of the code overflows. */
module MinecraftCodec {
  import opened Wrappers

  type Byte = x: int | 0 <= x < 256

  datatype ReadError = EndOfInput | TooLong | BadLength | NotHandshake | BadNextState | NotLogin | BadUsername

  const MAX_PACKET := 0x20_0000
  const MAX_VARINT_BYTES := 5
  const VARINT_LIMIT := 0x8_0000_0000  // 2^35

  // ---------------------------------------------------------------- what the bytes mean

  function EncodeVarInt(value: nat): (bytes: seq<Byte>)
    ensures bytes != []
  {
    if value < 128 then [value] else [128 + value % 128] + EncodeVarInt(value / 128)
  }

  /** The value at the front of `data` and how many bytes it takes, at most `left` of them. */
  function DecodeVarInt(data: seq<Byte>, left: nat): (r: Option<(nat, nat)>)
    ensures r.Some? ==> 0 < r.value.1 <= |data| && r.value.1 <= left
  {
    if data == [] || left == 0 then None
    else if data[0] < 128 then Some((data[0], 1))
    else
      match DecodeVarInt(data[1..], left - 1)
      case None => None
      case Some((v, n)) => Some((data[0] - 128 + 128 * v, n + 1))
  }

  function DecodePacket(data: seq<Byte>): (r: Option<(seq<Byte>, nat)>)
    ensures r.Some? ==> |r.value.0| < r.value.1 <= |data|
    ensures r.Some? ==> r.value.0 == data[r.value.1 - |r.value.0|..r.value.1]
  {
    match DecodeVarInt(data, MAX_VARINT_BYTES)
    case None => None
    case Some((length, n)) =>
      if length <= 0 || length > MAX_PACKET || length > |data| - n then None
      else Some((data[n..n + length], n + length))
  }

  function DecodeString(data: seq<Byte>, maximum: nat): (r: Option<(seq<Byte>, nat)>)
    ensures r.Some? ==> r.value.1 <= |data|
  {
    match DecodeVarInt(data, MAX_VARINT_BYTES)
    case None => None
    case Some((length, n)) =>
      if length > maximum * 4 || length > |data| - n then None
      else Some((data[n..n + length], n + length))
  }

  function Packet(body: seq<Byte>): seq<Byte> {
    EncodeVarInt(|body|) + body
  }

  function String(value: seq<Byte>): seq<Byte> {
    EncodeVarInt(|value|) + value
  }

  datatype Handshake = Handshake(protocol: nat, host: seq<Byte>, port: nat, nextState: nat)

  function EncodeHandshake(h: Handshake): seq<Byte>
    requires h.port < 0x1_0000
  {
    EncodeVarInt(0) + (EncodeVarInt(h.protocol) + (String(h.host) + ([h.port / 256, h.port % 256] + EncodeVarInt(h.nextState))))
  }

  // ---------------------------------------------------------------- round trips

  function Pow128(n: nat): nat {
    if n == 0 then 1 else 128 * Pow128(n - 1)
  }

  /** A number survives exactly when it fits into the groups the reader accepts. */
  lemma {:induction false} VarIntRoundTrip(value: nat, rest: seq<Byte>, left: nat)
    ensures left > 0 && value < Pow128(left) ==>
              DecodeVarInt(EncodeVarInt(value) + rest, left) == Some((value, |EncodeVarInt(value)|))
    ensures value >= Pow128(left) ==> DecodeVarInt(EncodeVarInt(value) + rest, left) == None
    decreases left
  {
    if left > 0 { PowPositive(left - 1); }
    if left > 0 && value >= 128 {
      VarIntRoundTrip(value / 128, rest, left - 1);
      var bytes := EncodeVarInt(value) + rest;
      assert bytes[1..] == EncodeVarInt(value / 128) + rest;
    }
  }

  lemma VarIntReadBack(value: nat, rest: seq<Byte>)
    ensures value < VARINT_LIMIT <==>
            DecodeVarInt(EncodeVarInt(value) + rest, MAX_VARINT_BYTES) == Some((value, |EncodeVarInt(value)|))
  {
    assert Pow128(1) == 128 && Pow128(2) == 0x4000 && Pow128(3) == 0x20_0000 && Pow128(4) == 0x1000_0000;
    assert Pow128(5) == VARINT_LIMIT;
    VarIntRoundTrip(value, rest, MAX_VARINT_BYTES);
  }

  lemma {:induction false} DecodedBelow(data: seq<Byte>, left: nat)
    ensures var r := DecodeVarInt(data, left); r.Some? ==> r.value.0 < Pow128(left)
  {
    if data != [] && left > 0 {
      if data[0] >= 128 { DecodedBelow(data[1..], left - 1); }
      PowPositive(left - 1);
    }
  }

  lemma {:induction false} PowPositive(n: nat)
    ensures Pow128(n) >= 1
  {
    if n > 0 { PowPositive(n - 1); }
  }

  /** Encoding what was read gives the bytes back exactly when the last group was not padding:
      the gateway must therefore keep the raw bytes to replay them. */
  lemma {:induction false} ReencodeIsRaw(data: seq<Byte>, left: nat)
    requires DecodeVarInt(data, left).Some?
    ensures var (v, n) := DecodeVarInt(data, left).value;
            EncodeVarInt(v) == data[..n] <==> n == 1 || data[n - 1] != 0
  {
    var (v, n) := DecodeVarInt(data, left).value;
    if data[0] >= 128 {
      var (w, k) := DecodeVarInt(data[1..], left - 1).value;
      ReencodeIsRaw(data[1..], left - 1);
      assert n == k + 1 && v == data[0] - 128 + 128 * w;
      assert data[..n] == [data[0]] + data[1..][..k] && data[n - 1] == data[1..][k - 1];
      if w == 0 {
        assert EncodeVarInt(0) == [0];
        if k == 1 { assert data[1..][..1] == [data[1]]; }
      } else {
        assert v >= 128 && v % 128 == data[0] - 128 && v / 128 == w;
        if k == 1 { assert data[1..][0] == w; }
      }
    } else {
      assert data[..1] == [data[0]];
    }
  }

  lemma PacketRoundTrip(body: seq<Byte>, rest: seq<Byte>)
    ensures DecodePacket(Packet(body) + rest) == Some((body, |Packet(body)|)) <==> 0 < |body| <= 2 * 1024 * 1024
  {
    var length, data := EncodeVarInt(|body|), Packet(body) + rest;
    VarIntReadBack(|body|, body + rest);
    assert data == length + (body + rest);
    if |body| <= MAX_PACKET { assert data[|length|..|length| + |body|] == body; }
  }

  lemma StringRoundTrip(value: seq<Byte>, rest: seq<Byte>, maximum: nat)
    ensures DecodeString(String(value) + rest, maximum) == Some((value, |String(value)|)) <==>
            |value| <= maximum * 4 && |value| < VARINT_LIMIT
  {
    var length, data := EncodeVarInt(|value|), String(value) + rest;
    VarIntReadBack(|value|, value + rest);
    assert data == length + (value + rest);
    if |value| <= maximum * 4 && |value| < VARINT_LIMIT { assert data[|length|..|length| + |value|] == value; }
  }

  // ---------------------------------------------------------------- the readers

  class Reader {
    const data: seq<Byte>
    var pos: nat

    ghost predicate Valid()
      reads this
    {
      pos <= |data|
    }

    constructor (data: seq<Byte>)
      ensures Valid() && this.data == data && pos == 0
    {
      this.data, pos := data, 0;
    }

    function Left(): seq<Byte>
      requires Valid()
      reads this
    {
      data[pos..]
    }

    method ReadByte() returns (r: Result<Byte, ReadError>)
      requires Valid()
      modifies this
      ensures Valid()
      ensures old(pos) == |data| ==> r == Err(EndOfInput) && pos == old(pos)
      ensures old(pos) < |data| ==> r == Ok(data[old(pos)]) && pos == old(pos) + 1
    {
      if pos == |data| {
        return Err(EndOfInput);
      }
      r := Ok(data[pos]);
      pos := pos + 1;
    }

    /** io.ReadFull into a buffer of `length` bytes. */
    method ReadFull(length: nat) returns (r: Result<seq<Byte>, ReadError>)
      requires Valid()
      modifies this
      ensures Valid()
      ensures r.Ok? <==> length <= |data| - old(pos)
      ensures r.Ok? ==> pos == old(pos) + length && r.value == data[old(pos)..pos] == old(Left())[..length]
      ensures r.Ok? ==> Left() == old(Left())[length..]
      ensures r.Err? ==> pos == |data|
    {
      if length > |data| - pos {
        pos := |data|;
        return Err(EndOfInput);
      }
      r := Ok(data[pos..pos + length]);
      pos := pos + length;
    }

    /** Up to five groups of seven bits, the lowest one first. */
    method ReadGroups() returns (r: Result<(nat, seq<Byte>), ReadError>)
      requires Valid()
      modifies this
      ensures Valid() && old(pos) <= pos
      ensures match DecodeVarInt(data[old(pos)..], MAX_VARINT_BYTES)
              case None => r.Err?
              case Some((v, n)) => r == Ok((v, data[old(pos)..pos])) && pos == old(pos) + n
    {
      ghost var start := pos;
      ghost var meaning := DecodeVarInt(data[start..], MAX_VARINT_BYTES);
      NothingRead(meaning);
      hide DecodeVarInt, Group, Continue;
      var value: nat, scale: nat, prefix: seq<Byte> := 0, 1, [];
      for position := 0 to MAX_VARINT_BYTES
        invariant Valid() && pos == start + position && prefix == data[start..pos] && value < scale
        invariant meaning == Continue(value, scale, position, DecodeVarInt(data[pos..], MAX_VARINT_BYTES - position))
      {
        var read := ReadByte();
        if read.Err? {
          NoGroup(value, scale, position, data[pos..], MAX_VARINT_BYTES - position);
          return Err(read.error);
        }
        var current := read.value;
        NextGroup(value, scale, position, data, pos - 1, MAX_VARINT_BYTES - position);
        SliceNext(data, start, pos - 1, prefix);
        prefix := prefix + [current];
        value := value + Group(current, scale);
        if current < 128 {
          return Ok((value, prefix));
        }
        scale := scale * 128;
      }
      NoGroup(value, scale, MAX_VARINT_BYTES, data[pos..], 0);
      return Err(TooLong);
    }

    /** Both VarInt readers of the code: the value, and the raw bytes it was read from. */
    method ReadVarInt() returns (r: Result<(nat, seq<Byte>), ReadError>)
      requires Valid()
      modifies this
      ensures Valid() && old(pos) <= pos
      ensures match DecodeVarInt(old(Left()), MAX_VARINT_BYTES)
              case None => r.Err?
              case Some((v, n)) =>
                r == Ok((v, data[old(pos)..pos])) && pos == old(pos) + n && Left() == old(Left())[n..]
    {
      hide DecodeVarInt;
      ghost var start := pos;
      r := ReadGroups();
      if r.Ok? { assert data[start..][pos - start..] == data[pos..]; }
    }

    method ReadPacket() returns (r: Result<(seq<Byte>, seq<Byte>), ReadError>)
      requires Valid()
      modifies this
      ensures Valid() && old(pos) <= pos
      ensures match DecodePacket(old(Left()))
              case None => r.Err?
              case Some((body, n)) => r == Ok((body, data[old(pos)..pos])) && pos == old(pos) + n
    {
      var length := ReadVarInt();
      if length.Err? {
        return Err(length.error);
      }
      if length.value.0 <= 0 || length.value.0 > MAX_PACKET {
        return Err(BadLength);
      }
      var body := ReadFull(length.value.0);
      if body.Err? {
        return Err(body.error);
      }
      r := Ok((body.value, length.value.1 + body.value));
      ghost var n := |length.value.1|;
      assert old(Left())[n..][..length.value.0] == old(Left())[n..n + length.value.0];
      assert data[old(pos)..pos] == length.value.1 + body.value;
    }

    method ReadString(maximum: nat) returns (r: Result<seq<Byte>, ReadError>)
      requires Valid()
      modifies this
      ensures Valid() && old(pos) <= pos
      ensures match DecodeString(old(Left()), maximum)
              case None => r.Err?
              case Some((value, n)) => r == Ok(value) && pos == old(pos) + n && Left() == old(Left())[n..]
    {
      var length := ReadVarInt();
      if length.Err? || length.value.0 > maximum * 4 || length.value.0 > |data| - pos {
        return Err(BadLength);
      }
      ghost var n := pos - old(pos);
      r := ReadFull(length.value.0);
      assert old(Left())[n..n + length.value.0] == old(Left())[n..][..length.value.0];
      assert old(Left())[n..][length.value.0..] == old(Left())[n + length.value.0..];
    }
  }

  /** int(current&0x7f) << (7 * position), where scale is 128^position. */
  function Group(current: Byte, scale: nat): nat {
    current % 128 * scale
  }

  // ---------------------------------------------------------------- the loop on 64-bit words

  lemma LowBits(word: bv64)
    requires word < 256
    ensures (word & 0x7f) as nat == word as nat % 128
  {
    assert word & 0x7f == word % 0x80;
    assert word / 0x80 == if word < 0x80 then 0 else 1;
    SplitAt7(word);
  }

  /** A word is its upper and its lower part. */
  lemma SplitAt7(word: bv64)
    requires word < 0x4000
    ensures word as nat == (word / 0x80) as nat * 0x80 + (word % 0x80) as nat
  {}

  lemma OrAt7(value: bv64, group: bv64)
    requires value as nat < 0x80 && group < 0x80
    ensures (value | (group << 7)) as nat == value as nat + group as nat * 0x80
  {
    assert value < 0x80;
    var word := value | (group << 7);
    assert word < 0x4000 && word / 0x80 == group && word % 0x80 == value;
    SplitAt7(word);
  }

  lemma SplitAt14(word: bv64)
    requires word < 0x20_0000
    ensures word as nat == (word / 0x4000) as nat * 0x4000 + (word % 0x4000) as nat
  {}

  lemma OrAt14(value: bv64, group: bv64)
    requires value as nat < 0x4000 && group < 0x80
    ensures (value | (group << 14)) as nat == value as nat + group as nat * 0x4000
  {
    assert value < 0x4000;
    var word := value | (group << 14);
    assert word < 0x20_0000 && word / 0x4000 == group && word % 0x4000 == value;
    SplitAt14(word);
  }

  lemma SplitAt21(word: bv64)
    requires word < 0x1000_0000
    ensures word as nat == (word / 0x20_0000) as nat * 0x20_0000 + (word % 0x20_0000) as nat
  {}

  lemma OrAt21(value: bv64, group: bv64)
    requires value as nat < 0x20_0000 && group < 0x80
    ensures (value | (group << 21)) as nat == value as nat + group as nat * 0x20_0000
  {
    assert value < 0x20_0000;
    var word := value | (group << 21);
    assert word < 0x1000_0000 && word / 0x20_0000 == group && word % 0x20_0000 == value;
    SplitAt21(word);
  }

  lemma SplitAt28(word: bv64)
    requires word < 0x8_0000_0000
    ensures word as nat == (word / 0x1000_0000) as nat * 0x1000_0000 + (word % 0x1000_0000) as nat
  {}

  lemma OrAt28(value: bv64, group: bv64)
    requires value as nat < 0x1000_0000 && group < 0x80
    ensures (value | (group << 28)) as nat == value as nat + group as nat * 0x1000_0000
  {
    assert value < 0x1000_0000;
    var word := value | (group << 28);
    assert word < 0x8_0000_0000 && word / 0x1000_0000 == group && word % 0x1000_0000 == value;
    SplitAt28(word);
  }

  /** `value |= int(current & 0x7f) << (7 * position)` on 64-bit words is the addition the readers
      make, at each position: no group overlaps the ones before it, and none is cut off. */
  lemma OrAddsFirstGroup(current: bv64)
    requires current < 256
    ensures (0 | (current & 0x7f)) as nat == Group(current as nat, 1)
  {
    LowBits(current);
    assert 0 | (current & 0x7f) == current & 0x7f;
  }

  lemma OrAddsSecondGroup(value: bv64, current: bv64)
    requires value as nat < 0x80 && current < 256
    ensures (value | ((current & 0x7f) << 7)) as nat == value as nat + Group(current as nat, 0x80)
  {
    LowBits(current);
    OrAt7(value, current & 0x7f);
  }

  lemma OrAddsThirdGroup(value: bv64, current: bv64)
    requires value as nat < 0x4000 && current < 256
    ensures (value | ((current & 0x7f) << 14)) as nat == value as nat + Group(current as nat, 0x4000)
  {
    LowBits(current);
    OrAt14(value, current & 0x7f);
  }

  lemma OrAddsFourthGroup(value: bv64, current: bv64)
    requires value as nat < 0x20_0000 && current < 256
    ensures (value | ((current & 0x7f) << 21)) as nat == value as nat + Group(current as nat, 0x20_0000)
  {
    LowBits(current);
    OrAt21(value, current & 0x7f);
  }

  lemma OrAddsFifthGroup(value: bv64, current: bv64)
    requires value as nat < 0x1000_0000 && current < 256
    ensures (value | ((current & 0x7f) << 28)) as nat == value as nat + Group(current as nat, 0x1000_0000)
  {
    LowBits(current);
    OrAt28(value, current & 0x7f);
  }

  /** What the whole number is once `value` has been collected and `rest` follows. */
  ghost function Continue(value: nat, scale: nat, position: nat, rest: Option<(nat, nat)>): Option<(nat, nat)> {
    match rest
    case None => None
    case Some((v, n)) => Some((value + v * scale, position + n))
  }

  lemma SliceNext(data: seq<Byte>, start: nat, pos: nat, prefix: seq<Byte>)
    requires start <= pos < |data| && prefix == data[start..pos]
    ensures prefix + [data[pos]] == data[start..pos + 1]
  {}

  lemma NothingRead(rest: Option<(nat, nat)>)
    ensures Continue(0, 1, 0, rest) == rest
  {}

  /** The bytes mean nothing if they end, or if a sixth one would be needed. */
  lemma NoGroup(value: nat, scale: nat, position: nat, rest: seq<Byte>, left: nat)
    requires rest == [] || left == 0
    ensures Continue(value, scale, position, DecodeVarInt(rest, left)) == None
  {}

  /** One more byte; a group stays below the bits of the next one. */
  lemma NextGroup(value: nat, scale: nat, position: nat, data: seq<Byte>, at: nat, left: nat)
    requires at < |data| && left > 0 && value < scale
    ensures Continue(value, scale, position, DecodeVarInt(data[at..], left)) ==
            if data[at] < 128 then Some((value + Group(data[at], scale), position + 1))
            else Continue(value + Group(data[at], scale), scale * 128, position + 1, DecodeVarInt(data[at + 1..], left - 1))
    ensures value + Group(data[at], scale) < scale * 128
  {
    assert data[at..][1..] == data[at + 1..];
    hide Group;
    GroupFits(value, data[at], scale);
    var group := data[at] % 128;
    GroupIs(data[at], scale);
    if data[at] < 128 {
      assert data[at] == group;
    } else {
      assert data[at] - 128 == group;
      match DecodeVarInt(data[at + 1..], left - 1)
      case None =>
      case Some((v, n)) => Spread(group, v, scale);
    }
  }

  lemma GroupFits(value: nat, current: Byte, scale: nat)
    requires value < scale
    ensures value + Group(current, scale) < scale * 128
  {
    ProductFits(current % 128, scale);
  }

  lemma GroupIs(current: Byte, scale: nat)
    ensures Group(current, scale) == current % 128 * scale
  {}

  lemma Spread(group: nat, v: nat, scale: nat)
    ensures (group + 128 * v) * scale == group * scale + v * (scale * 128)
  {
    assert (group + 128 * v) * scale == group * scale + (128 * v) * scale;
    assert (128 * v) * scale == v * (scale * 128);
  }

  lemma ProductFits(group: nat, scale: nat)
    requires group < 128
    ensures group * scale <= 127 * scale
  {
    assert (127 - group) * scale >= 0;
  }

  /** Only for values that are not negative, as in the code: the shift of a negative one never
      reaches zero. */
  method AppendVarInt(target: seq<Byte>, value: int) returns (bytes: seq<Byte>)
    requires value >= 0
    ensures bytes == target + EncodeVarInt(value)
  {
    var left: nat := value;
    bytes := target;
    while true
      invariant bytes + EncodeVarInt(left) == target + EncodeVarInt(value)
      decreases left
    {
      var current := left % 128;
      ghost var before := bytes;
      left := left / 128;
      if left != 0 {
        current := current + 128;
      }
      bytes := bytes + [current];
      if left == 0 {
        return;
      }
      assert before + ([current] + EncodeVarInt(left)) == bytes + EncodeVarInt(left);
    }
  }

  /** The handshake at the front of `data`, field after field. */
  function DecodeHandshake(data: seq<Byte>): (r: Option<Handshake>)
    ensures r.Some? ==> r.value.port < 0x1_0000 && r.value.nextState in {1, 2}
  {
    var id := DecodeVarInt(data, MAX_VARINT_BYTES);
    if id.None? || id.value.0 != 0 then None
    else
      var afterId := data[id.value.1..];
      var protocol := DecodeVarInt(afterId, MAX_VARINT_BYTES);
      if protocol.None? then None
      else
        var afterProtocol := afterId[protocol.value.1..];
        var host := DecodeString(afterProtocol, 255);
        if host.None? || |afterProtocol[host.value.1..]| < 2 then None
        else
          var afterHost := afterProtocol[host.value.1..];
          var nextState := DecodeVarInt(afterHost[2..], MAX_VARINT_BYTES);
          if nextState.None? || nextState.value.0 !in {1, 2} then None
          else Some(Handshake(protocol.value.0, host.value.0, BigEndian(afterHost[0], afterHost[1]), nextState.value.0))
  }

  function BigEndian(high: Byte, low: Byte): (port: nat)
    ensures port < 0x1_0000
  {
    256 * high + low
  }

  lemma HandshakeBounds(data: seq<Byte>)
    ensures var r := DecodeHandshake(data);
            r.Some? ==> r.value.protocol < VARINT_LIMIT && |r.value.host| <= 4 * 255
  {
    var id := DecodeVarInt(data, MAX_VARINT_BYTES);
    if id.Some? { DecodedBelow(data[id.value.1..], MAX_VARINT_BYTES); }
    assert Pow128(1) == 128 && Pow128(2) == 0x4000 && Pow128(3) == 0x20_0000 && Pow128(4) == 0x1000_0000;
    assert Pow128(5) == VARINT_LIMIT;
  }

  lemma HandshakeReadBack(h: Handshake, rest: seq<Byte>)
    requires h.port < 0x1_0000 && h.protocol < VARINT_LIMIT && |h.host| <= 4 * 255 && h.nextState in {1, 2}
    ensures DecodeHandshake(EncodeHandshake(h) + rest) == Some(h)
  {
    hide DecodeVarInt, EncodeVarInt, DecodeString, String;
    var state := EncodeVarInt(h.nextState) + rest;
    var high: Byte, low: Byte := h.port / 256, h.port % 256;
    var port := [high, low] + state;
    var host := String(h.host) + port;
    var protocol := EncodeVarInt(h.protocol) + host;
    var data := EncodeHandshake(h) + rest;
    assert data == EncodeVarInt(0) + protocol;
    VarIntReadBack(0, protocol);
    assert data[|EncodeVarInt(0)|..] == protocol;
    VarIntReadBack(h.protocol, host);
    assert protocol[|EncodeVarInt(h.protocol)|..] == host;
    StringRoundTrip(h.host, port, 255);
    assert host[|String(h.host)|..] == port;
    VarIntReadBack(h.nextState, rest);
    assert port[2..] == state && port[0] == high && port[1] == low;
    assert BigEndian(high, low) == h.port;
  }

  /** A handshake is understood as it was meant exactly when its fields are within bounds. */
  lemma HandshakeRoundTrip(h: Handshake, rest: seq<Byte>)
    requires h.port < 0x1_0000
    ensures DecodeHandshake(EncodeHandshake(h) + rest) == Some(h) <==>
            h.protocol < VARINT_LIMIT && |h.host| <= 4 * 255 && h.nextState in {1, 2}
  {
    hide DecodeVarInt, EncodeVarInt, DecodeString, EncodeHandshake;
    HandshakeBounds(EncodeHandshake(h) + rest);
    if h.protocol < VARINT_LIMIT && |h.host| <= 4 * 255 && h.nextState in {1, 2} { HandshakeReadBack(h, rest); }
  }

  method ParseHandshake(body: seq<Byte>) returns (r: Result<Handshake, ReadError>)
    ensures match DecodeHandshake(body)
            case None => r.Err?
            case Some(h) => r == Ok(h)
  {
    var reader := new Reader(body);
    assert reader.Left() == body;
    var packetId := reader.ReadVarInt();
    if packetId.Err? || packetId.value.0 != 0 {
      return Err(NotHandshake);
    }
    var protocol := reader.ReadVarInt();
    if protocol.Err? {
      return Err(protocol.error);
    }
    var host := reader.ReadString(255);
    if host.Err? {
      return Err(host.error);
    }
    var port := reader.ReadFull(2);
    if port.Err? {
      return Err(port.error);
    }
    var nextState := reader.ReadVarInt();
    if nextState.Err? || (nextState.value.0 != 1 && nextState.value.0 != 2) {
      return Err(BadNextState);
    }
    r := Ok(Handshake(protocol.value.0, host.value, BigEndian(port.value[0], port.value[1]), nextState.value.0));
  }

  predicate UsernameByte(c: Byte) {
    c == 95 || 97 <= c <= 122 || 65 <= c <= 90 || 48 <= c <= 57
  }

  predicate GoodUsername(name: seq<Byte>) {
    |name| >= 3 && forall c :: c in name ==> UsernameByte(c)
  }

  /** The name in a login start packet. */
  function DecodeLogin(data: seq<Byte>): Option<seq<Byte>> {
    var id := DecodeVarInt(data, MAX_VARINT_BYTES);
    if id.None? || id.value.0 != 0 then None
    else
      match DecodeString(data[id.value.1..], 16)
      case None => None
      case Some((name, _)) => Some(name)
  }

  lemma LongString(value: seq<Byte>, rest: seq<Byte>, maximum: nat)
    requires |value| > maximum * 4
    ensures DecodeString(String(value) + rest, maximum) == None
  {
    assert Pow128(1) == 128 && Pow128(2) == 0x4000 && Pow128(3) == 0x20_0000 && Pow128(4) == 0x1000_0000;
    assert String(value) + rest == EncodeVarInt(|value|) + (value + rest);
    hide DecodeVarInt, EncodeVarInt, Pow128;
    VarIntRoundTrip(|value|, value + rest, MAX_VARINT_BYTES);
  }

  lemma LoginRoundTrip(name: seq<Byte>, rest: seq<Byte>)
    ensures DecodeLogin(EncodeVarInt(0) + (String(name) + rest)) == Some(name) <==> |name| <= 64
  {
    hide DecodeVarInt, EncodeVarInt, DecodeString, String;
    var data := EncodeVarInt(0) + (String(name) + rest);
    VarIntReadBack(0, String(name) + rest);
    assert data[|EncodeVarInt(0)|..] == String(name) + rest;
    if |name| <= 64 { StringRoundTrip(name, rest, 16); } else { LongString(name, rest, 16); }
  }

  method ParseLoginUsername(body: seq<Byte>) returns (r: Result<seq<Byte>, ReadError>)
    ensures match DecodeLogin(body)
            case None => r.Err?
            case Some(name) => if GoodUsername(name) then r == Ok(name) else r.Err?
  {
    var reader := new Reader(body);
    assert reader.Left() == body;
    var packetId := reader.ReadVarInt();
    if packetId.Err? || packetId.value.0 != 0 {
      return Err(NotLogin);
    }
    var username := reader.ReadString(16);
    if username.Err? || |username.value| < 3 {
      return Err(BadUsername);
    }
    for i := 0 to |username.value|
      invariant forall k :: 0 <= k < i ==> UsernameByte(username.value[k])
    {
      if !UsernameByte(username.value[i]) {
        assert username.value[i] in username.value;
        return Err(BadUsername);
      }
    }
    r := username;
  }

  /** Letters, digits and the underscore. */
  lemma UsernameByteIsWordCharacter(c: Byte)
    ensures var x := c as char;
            UsernameByte(c) <==> 'a' <= x <= 'z' || 'A' <= x <= 'Z' || '0' <= x <= '9' || x == '_'
  {}

  /** What a client that logs in has sent: a handshake for a login, and then its name. */
  function DecodeConversation(data: seq<Byte>): Option<(seq<Byte>, nat)> {
    match DecodePacket(data)
    case None => None
    case Some((body, n)) =>
      var handshake := DecodeHandshake(body);
      if handshake.None? || handshake.value.nextState != 2 then None
      else
        match DecodePacket(data[n..])
        case None => None
        case Some((login, k)) =>
          match DecodeLogin(login)
          case None => None
          case Some(name) => if GoodUsername(name) then Some((name, n + k)) else None
  }

  lemma {:induction false} VarIntShort(value: nat, left: nat)
    requires left > 0 && value < Pow128(left)
    ensures |EncodeVarInt(value)| <= left
    decreases left
  {
    if value >= 128 {
      assert Pow128(1) == 128;
      VarIntShort(value / 128, left - 1);
    }
  }

  lemma VarIntFits(value: nat)
    requires value < VARINT_LIMIT
    ensures |EncodeVarInt(value)| <= 5
  {
    assert Pow128(1) == 128 && Pow128(2) == 0x4000 && Pow128(3) == 0x20_0000 && Pow128(4) == 0x1000_0000;
    assert Pow128(5) == VARINT_LIMIT;
    VarIntShort(value, 5);
  }

  lemma HandshakeFits(h: Handshake)
    requires h.port < 0x1_0000 && h.protocol < VARINT_LIMIT && |h.host| <= 4 * 255 && h.nextState < VARINT_LIMIT
    ensures 0 < |EncodeHandshake(h)| <= MAX_PACKET
  {
    VarIntFits(0);
    VarIntFits(h.protocol);
    VarIntFits(|h.host|);
    VarIntFits(h.nextState);
  }

  lemma LoginFits(name: seq<Byte>)
    requires |name| <= 64
    ensures 0 < |EncodeVarInt(0) + (String(name) + [])| <= MAX_PACKET
  {
    VarIntFits(0);
    VarIntFits(|name|);
  }

  lemma ConversationOf(data: seq<Byte>, body: seq<Byte>, n: nat, login: seq<Byte>, k: nat, name: seq<Byte>)
    requires DecodePacket(data) == Some((body, n)) && n <= |data| && DecodePacket(data[n..]) == Some((login, k))
    requires DecodeHandshake(body).Some? && DecodeHandshake(body).value.nextState == 2
    requires DecodeLogin(login) == Some(name) && GoodUsername(name)
    ensures DecodeConversation(data) == Some((name, n + k))
  {
    hide DecodePacket, DecodeHandshake, DecodeLogin, GoodUsername;
  }

  /** Every client that follows the protocol within the limits is understood, whatever follows. */
  lemma ConversationReadBack(h: Handshake, name: seq<Byte>, rest: seq<Byte>)
    requires h.port < 0x1_0000 && h.protocol < VARINT_LIMIT && |h.host| <= 4 * 255 && h.nextState == 2
    requires GoodUsername(name) && |name| <= 64
    ensures var first, second := Packet(EncodeHandshake(h)), Packet(EncodeVarInt(0) + (String(name) + []));
            DecodeConversation(first + (second + rest)) == Some((name, |first| + |second|))
  {
    assert h.nextState < VARINT_LIMIT && MAX_PACKET == 2 * 1024 * 1024;
    hide *;
    var body, login := EncodeHandshake(h), EncodeVarInt(0) + (String(name) + []);
    var first, second := Packet(body), Packet(login);
    HandshakeFits(h);
    LoginFits(name);
    assert (first + (second + rest))[|first|..] == second + rest;
    PacketRoundTrip(body, second + rest);
    PacketRoundTrip(login, rest);
    HandshakeReadBack(h, []);
    assert body + [] == body;
    LoginRoundTrip(name, []);
    ConversationOf(first + (second + rest), body, |first|, login, |second|, name);
  }

  /** The login path of a connection: it understands exactly the clients that follow the protocol,
      and what it will replay to a backend that just came up is exactly what the client has sent. */
  method ReadLogin(client: Reader) returns (r: Result<(seq<Byte>, seq<Byte>), ReadError>)
    requires client.Valid()
    modifies client
    ensures client.Valid() && old(client.pos) <= client.pos
    ensures match DecodeConversation(old(client.Left()))
            case None => r.Err?
            case Some((name, n)) => r == Ok((name, client.data[old(client.pos)..client.pos])) && client.pos == old(client.pos) + n
  {
    hide DecodePacket, DecodeHandshake, DecodeLogin, EncodeVarInt, String;
    ghost var start := client.pos;
    var first := client.ReadPacket();
    if first.Err? {
      return Err(first.error);
    }
    var handshake := ParseHandshake(first.value.0);
    if handshake.Err? || handshake.value.nextState != 2 {
      return Err(NotLogin);
    }
    assert client.data[start..][client.pos - start..] == client.Left();
    var second := client.ReadPacket();
    if second.Err? {
      return Err(second.error);
    }
    var username := ParseLoginUsername(second.value.0);
    if username.Err? {
      return Err(username.error);
    }
    r := Ok((username.value, first.value.1 + second.value.1));
    assert first.value.1 + second.value.1 == client.data[start..client.pos];
  }
}
