/** The wire format of responses (crates/ussl-protocol/src/response.rs, grammar in
  * crates/ussl-protocol/src/lib.rs). A wire byte is written as a char; text
  * fields stand for their UTF-8 bytes. */
module Responses {
  import opened Basics
  import opened Decimal
  import Base64
  import Values

  datatype Response =
    | Ok(msg: Option<string>)
    | Error(code: string, message: string)
    | Bulk(data: string)
    | Array(items: seq<Response>)
    | Delta(version: nat, delta: Base64.Bytes)
    | Integer(n: int)
    | Val(value: Values.Value)
    | Null
    | Pong

  /** `serde_json::to_string`: some rendering of values. */
  type Json = Values.Value -> string

  const CRLF: string := "\r\n"

  // ---------- encoding ----------

  /** The first line of a response, without its line end. */
  function Header(r: Response, json: Json): string {
    match r
    case Ok(None) => "+OK"
    case Ok(Some(msg)) => "+OK " + msg
    case Error(code, message) => "-ERR " + code + " " + message
    case Bulk(data) => "$" + Print(|data|)
    case Array(items) => "*" + Print(|items|)
    case Delta(version, delta) => "#" + Print(version) + " " + Base64.Encode(delta)
    case Integer(n) => ":" + PrintInt(n)
    case Val(v) => "$" + Print(|json(v)|)
    case Null => "$-1"
    case Pong => "+PONG"
  }

  function Encode(r: Response, json: Json): string
    decreases r, 0
  {
    Header(r, json) + CRLF +
    match r
    case Bulk(data) => data + CRLF
    case Array(items) => EncodeAll(items, json)
    case Val(v) => json(v) + CRLF
    case _ => ""
  }

  function EncodeAll(items: seq<Response>, json: Json): string
    decreases items, 1
  {
    if items == [] then "" else Encode(items[0], json) + EncodeAll(items[1..], json)
  }

  class Buffer {
    var bytes: string

    constructor ()
      ensures bytes == ""
    {
      bytes := "";
    }

    method Put(slice: string)
      modifies this
      ensures bytes == old(bytes) + slice
    {
      bytes := bytes + slice;
    }
  }

  /** `encode_into`: appends the encoding to the buffer. */
  method EncodeInto(r: Response, json: Json, buf: Buffer)
    modifies buf
    ensures buf.bytes == old(buf.bytes) + Encode(r, json)
    decreases r, 0
  {
    hide Print, PrintInt, Base64.Encode, EncodeAll;
    ghost var before := buf.bytes;
    match r {
      case Ok(None) =>
        buf.Put("+OK\r\n");
        assert buf.bytes == before + ("+OK" + CRLF + "");
      case Ok(Some(msg)) =>
        buf.Put("+OK ");
        buf.Put(msg);
        buf.Put("\r\n");
        assert buf.bytes == before + ("+OK " + msg + CRLF + "");
      case Error(code, message) =>
        buf.Put("-ERR ");
        buf.Put(code);
        buf.Put(" ");
        buf.Put(message);
        buf.Put("\r\n");
        assert buf.bytes == before + ("-ERR " + code + " " + message + CRLF + "");
      case Bulk(data) =>
        EncodeBulk(data, buf);
      case Array(items) =>
        buf.Put("*");
        buf.Put(Print(|items|));
        buf.Put("\r\n");
        EncodeItems(items, json, buf);
        assert buf.bytes == before + ("*" + Print(|items|) + CRLF + EncodeAll(items, json));
      case Delta(version, delta) =>
        EncodeDelta(version, delta, buf);
        assert buf.bytes == before + ("#" + Print(version) + " " + Base64.Encode(delta) + CRLF + "");
      case Integer(n) =>
        buf.Put(":");
        buf.Put(PrintInt(n));
        buf.Put("\r\n");
        assert buf.bytes == before + (":" + PrintInt(n) + CRLF + "");
      case Val(v) =>
        EncodeBulk(json(v), buf);
      case Null =>
        buf.Put("$-1\r\n");
        assert buf.bytes == before + ("$-1" + CRLF + "");
      case Pong =>
        buf.Put("+PONG\r\n");
        assert buf.bytes == before + ("+PONG" + CRLF + "");
    }
  }

  method EncodeDelta(version: nat, delta: Base64.Bytes, buf: Buffer)
    modifies buf
    ensures buf.bytes == old(buf.bytes) + ("#" + Print(version) + " " + Base64.Encode(delta) + CRLF)
  {
    hide Print, Base64.Encode;
    buf.Put("#");
    buf.Put(Print(version));
    buf.Put(" ");
    var encoded := Base64.Base64Encode(delta);
    buf.Put(encoded);
    buf.Put("\r\n");
  }

  method EncodeBulk(data: string, buf: Buffer)
    modifies buf
    ensures buf.bytes == old(buf.bytes) + ("$" + Print(|data|) + CRLF + (data + CRLF))
  {
    hide Print;
    buf.Put("$");
    buf.Put(Print(|data|));
    buf.Put("\r\n");
    buf.Put(data);
    buf.Put("\r\n");
  }

  method EncodeItems(items: seq<Response>, json: Json, buf: Buffer)
    modifies buf
    ensures buf.bytes == old(buf.bytes) + EncodeAll(items, json)
    decreases items, 1
  {
    hide Encode;
    var i := 0;
    while i < |items|
      invariant i <= |items|
      invariant buf.bytes + EncodeAll(items[i..], json) == old(buf.bytes) + EncodeAll(items, json)
    {
      ghost var before := buf.bytes;
      assert items[i..][1..] == items[i + 1..];
      EncodeInto(items[i], json, buf);
      assert before + (Encode(items[i], json) + EncodeAll(items[i + 1..], json)) ==
          buf.bytes + EncodeAll(items[i + 1..], json);
      i := i + 1;
    }
  }
}
