/**
 * The binary wire format of the demo's actions (`serialize_action` and
 * `deserialize_action` in src/main.ts): a one-byte tag, the time and the
 * player id as the low six bytes of a 64-bit word in little-endian order
 * (the source uses the host's order; a little-endian host is assumed), then the
 * UTF-8 name of a `SetNick` or the key byte and the down flag of a
 * `KeyEvent`.  UTF-8 itself (`TextEncoder`/`TextDecoder`) is passed in as
 * an `encode`/`decode` pair of functions.
 */
module ActionCodec {
  import opened DemoGame

  type Byte = b: int | 0 <= b < 256

  /** 2^48: the time and the player id travel as 48-bit unsigned integers. */
  const Pow48: int := 0x1_0000_0000_0000

  const SetNickTag: Byte := 0
  const KeyEventTag: Byte := 1

  datatype Result<T> = Ok(value: T) | Err(message: string)

  function Pow256(k: nat): (p: int)
    ensures p > 0
  {
    if k == 0 then 1 else 256 * Pow256(k - 1)
  }

  lemma Pow256Six()
    ensures Pow256(6) == Pow48
  {
    assert Pow256(2) == 0x1_0000;
    assert Pow256(4) == 0x1_0000_0000;
  }

  /** The value of bytes read least significant first. */
  function LeValue(bytes: seq<Byte>): (n: int)
    ensures 0 <= n < Pow256(|bytes|)
  {
    if bytes == [] then 0 else bytes[0] + 256 * LeValue(bytes[1..])
  }

  /** The `k` low bytes of `n`, least significant first. */
  function LeBytes(n: nat, k: nat): (bytes: seq<Byte>)
    ensures |bytes| == k
  {
    if k == 0 then [] else [n % 256] + LeBytes(n / 256, k - 1)
  }

  /** Reading back the `k` low bytes of a number below 256^k gives the number. */
  lemma {:induction false} LeValueOfLeBytes(n: nat, k: nat)
    requires n < Pow256(k)
    ensures LeValue(LeBytes(n, k)) == n
  {
    if k > 0 {
      assert n / 256 < Pow256(k - 1);
      LeValueOfLeBytes(n / 256, k - 1);
      assert LeBytes(n, k)[1..] == LeBytes(n / 256, k - 1);
    }
  }

  /** Writing out the value of `k` bytes gives back those bytes. */
  lemma {:induction false} LeBytesOfLeValue(bytes: seq<Byte>)
    ensures LeBytes(LeValue(bytes), |bytes|) == bytes
  {
    if bytes != [] {
      LeBytesOfLeValue(bytes[1..]);
      var n := LeValue(bytes);
      assert n % 256 == bytes[0] && n / 256 == LeValue(bytes[1..]);
    }
  }

  /**
   * The six bytes `BigUint64Array([BigInt(n)])` holds below its top two:
   * `n` reduced modulo 2^48 (two's complement for a negative `n`).
   */
  function Int48(n: int): (bytes: seq<Byte>)
    ensures |bytes| == 6
    ensures LeValue(bytes) == n % Pow48
  {
    Pow256Six();
    LeValueOfLeBytes(n % Pow48, 6);
    LeBytes(n % Pow48, 6)
  }

  /** `charCodeAt(0)` stored into a `Uint8Array`: NaN (empty key) becomes 0, larger codes wrap. */
  function KeyByte(key: JsString): (b: Byte)
    ensures |key| > 0 ==> b == key[0] % 256
    ensures |key| > 0 && key[0] < 256 ==> b == key[0]
    ensures |key| == 0 ==> b == 0
  {
    if |key| == 0 then 0 else key[0] % 256
  }

  function Tag(action: Action): Byte {
    match action
    case SetNick(_, _, _) => SetNickTag
    case KeyEvent(_, _, _, _) => KeyEventTag
  }

  /** The bytes after the two integers: the encoded name, or the key byte and the down flag. */
  function Payload(action: Action, encode: JsString -> seq<Byte>): seq<Byte> {
    match action
    case SetNick(_, _, name) => encode(name)
    case KeyEvent(_, _, key, down) => [KeyByte(key), if down then 1 else 0]
  }

  /** The buffer `serialize_action` returns, with its byte layout. */
  function Serialize(action: Action, encode: JsString -> seq<Byte>): (r: seq<Byte>)
    ensures |r| >= 13
    ensures r[0] == (if action.SetNick? then SetNickTag else KeyEventTag)
    ensures LeValue(r[1..7]) == action.time % Pow48
    ensures LeValue(r[7..13]) == action.pid % Pow48
    ensures action.SetNick? ==> r[13..] == encode(action.name)
    ensures action.KeyEvent? ==> |r| == 15 && r[13] == KeyByte(action.key)
    ensures action.KeyEvent? ==> (r[14] == 1 <==> action.down) && (r[14] == 0 <==> !action.down)
  {
    var r := [Tag(action)] + Int48(action.time) + Int48(action.pid) + Payload(action, encode);
    assert r[1..7] == Int48(action.time);
    assert r[7..13] == Int48(action.pid);
    r
  }

  /** `serialize_action` as written: one `push` per field onto a growing buffer. */
  method SerializeAction(action: Action, encode: JsString -> seq<Byte>) returns (buffer: seq<Byte>)
    ensures buffer == Serialize(action, encode)
  {
    buffer := [];
    match action {
      case SetNick(time, pid, name) =>
        buffer := buffer + [SetNickTag];
        buffer := buffer + Int48(time);
        buffer := buffer + Int48(pid);
        buffer := buffer + encode(name);
      case KeyEvent(time, pid, key, down) =>
        buffer := buffer + [KeyEventTag];
        buffer := buffer + Int48(time);
        buffer := buffer + Int48(pid);
        buffer := buffer + [KeyByte(key)];
        buffer := buffer + [if down then 1 else 0];
    }
  }

  /** `data.slice(lo, hi)`: the bounds are clamped to the buffer. */
  function Slice(data: seq<Byte>, lo: nat, hi: nat): (r: seq<Byte>)
    ensures hi <= |data| && lo <= hi ==> r == data[lo..hi]
    ensures lo <= |data| <= hi ==> r == data[lo..]
    ensures |data| <= lo ==> r == []
  {
    var a := if lo < |data| then lo else |data|;
    var b := if hi < |data| then hi else |data|;
    if a <= b then data[a..b] else []
  }

  /**
   * The six bytes at `lo` copied into a zeroed eight-byte buffer and read
   * as one little-endian word; bytes past the end of `data` read as 0.
   */
  function Field48(data: seq<Byte>, lo: nat): (n: int)
    ensures 0 <= n < Pow48
    ensures lo + 6 <= |data| ==> n == LeValue(data[lo..lo + 6])
    ensures lo <= |data| < lo + 6 ==> n == LeValue(data[lo..])
    ensures |data| <= lo ==> n == 0
  {
    var bytes := Slice(data, lo, lo + 6);
    Pow256Six();
    assert |bytes| <= 6;
    PowMonotone(|bytes|, 6);
    LeValue(bytes)
  }

  lemma {:induction false} PowMonotone(j: nat, k: nat)
    requires j <= k
    ensures Pow256(j) <= Pow256(k)
  {
    if j < k {
      PowMonotone(j, k - 1);
    }
  }

  /**
   * `deserialize_action`: fails on an empty buffer or an unknown tag;
   * otherwise reads the fields, treating missing bytes as zeros, a missing
   * key byte as code 0 and a missing down byte as false.
   */
  function Deserialize(data: seq<Byte>, decode: seq<Byte> -> JsString): (r: Result<Action>)
    ensures r.Err? <==> |data| == 0 || data[0] > KeyEventTag
    ensures r.Ok? ==> (r.value.SetNick? <==> data[0] == SetNickTag)
    ensures r.Ok? ==> 0 <= r.value.time < Pow48 && 0 <= r.value.pid < Pow48
    ensures r.Ok? && |data| >= 13 ==> r.value.time == LeValue(data[1..7]) && r.value.pid == LeValue(data[7..13])
    ensures r.Ok? && r.value.SetNick? ==> r.value.name == decode(Slice(data, 13, |data|))
    ensures r.Ok? && r.value.KeyEvent? ==> r.value.key == [if |data| > 13 then data[13] else 0]
    ensures r.Ok? && r.value.KeyEvent? ==> |r.value.key| == 1 && r.value.key[0] < 256
    ensures r.Ok? && r.value.KeyEvent? ==> (r.value.down <==> |data| > 14 && data[14] == 1)
  {
    if |data| == 0 then Err("Unknown action type")
    else if data[0] == SetNickTag then
      Ok(SetNick(Field48(data, 1), Field48(data, 7), decode(Slice(data, 13, |data|))))
    else if data[0] == KeyEventTag then
      var code := if |data| > 13 then data[13] else 0;
      Ok(KeyEvent(Field48(data, 1), Field48(data, 7), [code], |data| > 14 && data[14] == 1))
    else Err("Unknown action type")
  }

  /** A `KeyEvent` whose fields fit the format survives the trip over the wire unchanged. */
  lemma KeyEventRoundTrip(action: Action, encode: JsString -> seq<Byte>, decode: seq<Byte> -> JsString)
    requires action.KeyEvent?
    requires 0 <= action.time < Pow48 && 0 <= action.pid < Pow48
    requires |action.key| == 1 && action.key[0] < 256
    ensures Deserialize(Serialize(action, encode), decode) == Ok(action)
  {
    var data := Serialize(action, encode);
    assert Field48(data, 1) == action.time by {
      assert Slice(data, 1, 7) == data[1..7];
    }
    assert Field48(data, 7) == action.pid by {
      assert Slice(data, 7, 13) == data[7..13];
    }
    assert [data[13]] == action.key;
  }

  /** A `SetNick` survives the trip when its name survives UTF-8 encoding and decoding. */
  lemma SetNickRoundTrip(action: Action, encode: JsString -> seq<Byte>, decode: seq<Byte> -> JsString)
    requires action.SetNick?
    requires 0 <= action.time < Pow48 && 0 <= action.pid < Pow48
    requires decode(encode(action.name)) == action.name
    ensures Deserialize(Serialize(action, encode), decode) == Ok(action)
  {
    var data := Serialize(action, encode);
    assert Field48(data, 1) == action.time by {
      assert Slice(data, 1, 7) == data[1..7];
    }
    assert Field48(data, 7) == action.pid by {
      assert Slice(data, 7, 13) == data[7..13];
    }
    assert Slice(data, 13, |data|) == encode(action.name);
  }

  /**
   * What the trip over the wire does to any action: the integers are
   * reduced modulo 2^48, the key is cut to its first code unit's low byte
   * and the name goes through UTF-8.
   */
  function OverTheWire(action: Action, encode: JsString -> seq<Byte>, decode: seq<Byte> -> JsString): Action {
    match action
    case SetNick(time, pid, name) => SetNick(time % Pow48, pid % Pow48, decode(encode(name)))
    case KeyEvent(time, pid, key, down) => KeyEvent(time % Pow48, pid % Pow48, [KeyByte(key)], down)
  }

  lemma DeserializeSerialize(action: Action, encode: JsString -> seq<Byte>, decode: seq<Byte> -> JsString)
    ensures Deserialize(Serialize(action, encode), decode) == Ok(OverTheWire(action, encode, decode))
  {
    var data := Serialize(action, encode);
    assert Field48(data, 1) == action.time % Pow48 by {
      assert Slice(data, 1, 7) == data[1..7];
    }
    assert Field48(data, 7) == action.pid % Pow48 by {
      assert Slice(data, 7, 13) == data[7..13];
    }
    if action.SetNick? {
      assert Slice(data, 13, |data|) == encode(action.name);
    }
  }

  /** Six bytes read as a 48-bit field and written back are the same six bytes. */
  lemma Int48OfLeValue(bytes: seq<Byte>)
    requires |bytes| == 6
    ensures Int48(LeValue(bytes)) == bytes
  {
    Pow256Six();
    LeBytesOfLeValue(bytes);
  }

  /** A well-formed 15-byte `KeyEvent` buffer is reproduced byte for byte by decoding and re-encoding. */
  lemma SerializeDeserializeKeyEvent(data: seq<Byte>, encode: JsString -> seq<Byte>, decode: seq<Byte> -> JsString)
    requires |data| == 15 && data[0] == KeyEventTag && data[14] <= 1
    ensures Deserialize(data, decode).Ok?
    ensures Serialize(Deserialize(data, decode).value, encode) == data
  {
    var time, pid := data[1..7], data[7..13];
    assert Slice(data, 1, 7) == time && Slice(data, 7, 13) == pid;
    var action := KeyEvent(LeValue(time), LeValue(pid), [data[13]], data[14] == 1);
    assert Deserialize(data, decode) == Ok(action);
    Int48OfLeValue(time);
    Int48OfLeValue(pid);
    calc {
      Serialize(action, encode);
      [KeyEventTag] + Int48(action.time) + Int48(action.pid) + [data[13], data[14]];
      [data[0]] + time + pid + data[13..];
      data;
    }
  }

  /** A `SetNick` buffer whose name bytes survive UTF-8 decoding and re-encoding is reproduced byte for byte. */
  lemma SerializeDeserializeSetNick(data: seq<Byte>, encode: JsString -> seq<Byte>, decode: seq<Byte> -> JsString)
    requires |data| >= 13 && data[0] == SetNickTag
    requires encode(decode(data[13..])) == data[13..]
    ensures Deserialize(data, decode).Ok?
    ensures Serialize(Deserialize(data, decode).value, encode) == data
  {
    var time, pid := data[1..7], data[7..13];
    assert Slice(data, 1, 7) == time && Slice(data, 7, 13) == pid;
    assert Slice(data, 13, |data|) == data[13..];
    var action := SetNick(LeValue(time), LeValue(pid), decode(data[13..]));
    assert Deserialize(data, decode) == Ok(action);
    Int48OfLeValue(time);
    Int48OfLeValue(pid);
    calc {
      Serialize(action, encode);
      [SetNickTag] + Int48(action.time) + Int48(action.pid) + encode(decode(data[13..]));
      [data[0]] + time + pid + data[13..];
      data;
    }
  }
}
