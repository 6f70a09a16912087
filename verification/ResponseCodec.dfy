/** A strict decoder for the documented response grammar
  * (crates/ussl-protocol/src/lib.rs:10-17) and the proof that it accepts exactly
  * the encodings: the wire format is self-delimiting. */
module ResponseCodec {
  import opened Basics
  import opened Decimal
  import opened Strings
  import opened Responses
  import Base64

  // ---------- lines and fields ----------

  /** The first line, which must end in CR LF, and what follows it. */
  function Line(s: string): (r: Option<(string, string)>)
    ensures match r case None => true case Some((line, rest)) => Free(line, '\n') && s == line + CRLF + rest
  {
    match Cut(s, '\n')
    case Some((a, rest)) =>
      if a != "" && a[|a| - 1] == '\r' then
        assert a == a[..|a| - 1] + "\r";
        Some((a[..|a| - 1], rest))
      else None
    case None => None
  }

  lemma LineIs(line: string, rest: string)
    requires Free(line, '\n')
    ensures Line(line + CRLF + rest) == Some((line, rest))
  {
    var a := line + "\r";
    assert line + CRLF + rest == a + "\n" + rest;
    CutIs(a, '\n', rest);
    assert a[..|a| - 1] == line;
  }

  /** A numeral without leading zeros. */
  function Natural(s: string): (r: Option<nat>)
    ensures r.Some? ==> Print(r.value) == s
  {
    if Canonical(s) then
      PrintOfNumeral(s);
      Some(Numeral(s))
    else None
  }

  lemma NaturalOfPrint(n: nat)
    ensures Natural(Print(n)) == Some(n)
  {
    PrintIsCanonical(n);
    NumeralOfPrint(n);
  }

  function Signed(s: string): (r: Option<int>)
    ensures r.Some? ==> PrintInt(r.value) == s
  {
    if s != "" && s[0] == '-' then
      match Natural(s[1..])
      case Some(n) => if n > 0 then Some(0 - n) else None
      case None => None
    else
      match Natural(s)
      case Some(n) => Some(n)
      case None => None
  }

  lemma SignedOfPrint(n: int)
    ensures Signed(PrintInt(n)) == Some(n)
  {
    if n < 0 {
      NaturalOfPrint(-n);
      assert PrintInt(n)[1..] == Print(-n);
    } else {
      NaturalOfPrint(n);
      assert IsDigit(Print(n)[0]);
    }
  }

  // ---------- decoding ----------

  /** What a header line announces. */
  datatype Head = Whole(r: Response) | BulkOf(n: nat) | ArrayOf(n: nat) | Malformed

  function Status(text: string): Head {
    if text == "OK" then Whole(Ok(None))
    else if text == "PONG" then Whole(Pong)
    else if |text| >= 3 && text[..3] == "OK " then Whole(Ok(Some(text[3..])))
    else Malformed
  }

  function Failure(text: string): Head {
    if |text| < 4 || text[..4] != "ERR " then Malformed else
    match Cut(text[4..], ' ')
    case Some((code, message)) => Whole(Error(code, message))
    case None => Malformed
  }

  function Update(text: string): Head {
    match Cut(text, ' ')
    case Some((version, payload)) =>
      (match (Natural(version), Base64.Decode(payload))
       case (Some(n), Some(delta)) => Whole(Delta(n, delta))
       case _ => Malformed)
    case None => Malformed
  }

  function ParseHeader(line: string): Head {
    if line == "" then Malformed else
    var text := line[1..];
    match line[0]
    case '+' => Status(text)
    case '-' => Failure(text)
    case '#' => Update(text)
    case ':' => (match Signed(text) case Some(n) => Whole(Integer(n)) case None => Malformed)
    case '*' => (match Natural(text) case Some(n) => ArrayOf(n) case None => Malformed)
    case '$' =>
      if text == "-1" then Whole(Null) else
      (match Natural(text) case Some(n) => BulkOf(n) case None => Malformed)
    case _ => Malformed
  }

  type Decoded = Option<(Response, string)>

  /** One response from the front of a stream, and the rest of the stream. */
  function Decode(s: string): (r: Decoded)
    ensures r.Some? ==> |r.value.1| < |s|
    decreases |s|, 0
  {
    match Line(s)
    case None => None
    case Some((line, rest)) =>
      match ParseHeader(line)
      case Malformed => None
      case Whole(r) => Some((r, rest))
      case BulkOf(n) =>
        if n + 2 <= |rest| && rest[n..n + 2] == CRLF then Some((Bulk(rest[..n]), rest[n + 2..])) else None
      case ArrayOf(n) =>
        match DecodeMany(rest, n)
        case Some((items, after)) => Some((Array(items), after))
        case None => None
  }

  function DecodeMany(s: string, n: nat): (r: Option<(seq<Response>, string)>)
    ensures r.Some? ==> |r.value.0| == n && |r.value.1| <= |s|
    decreases |s|, n + 1
  {
    if n == 0 then Some(([], s)) else
    match Decode(s)
    case None => None
    case Some((item, rest)) =>
      match DecodeMany(rest, n - 1)
      case None => None
      case Some((items, after)) => Some(([item] + items, after))
  }

  // ---------- the grammar's texts ----------

  /** Texts stay on their line and error codes are one word. */
  predicate Speakable(r: Response) {
    match r
    case Ok(Some(msg)) => Free(msg, '\n')
    case Error(code, message) => Free(code, '\n') && Free(code, ' ') && Free(message, '\n')
    case Array(items) => forall i :: 0 <= i < |items| ==> Speakable(items[i])
    case _ => true
  }

  /** A response as the receiver sees it: a value is the bulk of its JSON. */
  function Shown(r: Response, json: Json): Response {
    match r
    case Val(v) => Bulk(json(v))
    case Array(items) => Array(seq(|items|, i requires 0 <= i < |items| => Shown(items[i], json)))
    case _ => r
  }

  function ShownAll(items: seq<Response>, json: Json): seq<Response> {
    if items == [] then [] else [Shown(items[0], json)] + ShownAll(items[1..], json)
  }

  lemma {:induction false} ShownAllIs(items: seq<Response>, json: Json)
    ensures ShownAll(items, json) == seq(|items|, i requires 0 <= i < |items| => Shown(items[i], json))
  {
    if items != [] {
      ShownAllIs(items[1..], json);
    }
  }

  lemma DigitsAreFree(n: nat)
    ensures Free(Print(n), '\n') && Free(Print(n), ' ')
  {}

  lemma EncodingIsFree(d: Base64.Bytes)
    ensures Free(Base64.Encode(d), '\n')
  {
    Base64.EncodeShape(d);
  }

  lemma HeaderIsOneLine(r: Response, json: Json)
    requires Speakable(r)
    ensures Free(Header(r, json), '\n')
  {
    match r
    case Bulk(data) => DigitsAreFree(|data|);
    case Array(items) => DigitsAreFree(|items|);
    case Delta(version, delta) => DigitsAreFree(version); EncodingIsFree(delta);
    case Val(v) => DigitsAreFree(|json(v)|);
    case _ =>
  }

  /** What the header of a response announces. */
  function Announced(r: Response, json: Json): Head {
    match r
    case Bulk(data) => BulkOf(|data|)
    case Val(v) => BulkOf(|json(v)|)
    case Array(items) => ArrayOf(|items|)
    case _ => Whole(r)
  }

  lemma BulkHeaderParses(n: nat)
    ensures ParseHeader("$" + Print(n)) == BulkOf(n)
  {
    NaturalOfPrint(n);
    assert ("$" + Print(n))[1..] == Print(n);
    assert IsDigit(Print(n)[0]);
  }

  lemma OkHeaderParses(msg: string)
    ensures ParseHeader("+OK " + msg) == Whole(Ok(Some(msg)))
  {
    var text := ("+OK " + msg)[1..];
    assert text == "OK " + msg;
    assert text[3..] == msg && text[..3] == "OK ";
    assert text != "OK" && text[1] != "PONG"[1];
  }

  lemma ErrorHeaderParses(code: string, message: string)
    requires Free(code, ' ')
    ensures ParseHeader("-ERR " + code + " " + message) == Whole(Error(code, message))
  {
    var text := ("-ERR " + code + " " + message)[1..];
    assert text[..4] == "ERR ";
    assert text[4..] == code + [' '] + message;
    CutIs(code, ' ', message);
  }

  lemma DeltaHeaderParses(version: nat, delta: Base64.Bytes)
    ensures ParseHeader("#" + Print(version) + " " + Base64.Encode(delta)) == Whole(Delta(version, delta))
  {
    hide Natural, Print, Base64.Encode, Base64.Decode;
    var text := ("#" + Print(version) + " " + Base64.Encode(delta))[1..];
    NaturalOfPrint(version);
    DigitsAreFree(version);
    Base64.DecodeOfEncode(delta);
    CutIs(Print(version), ' ', Base64.Encode(delta));
    assert text == Print(version) + [' '] + Base64.Encode(delta);
  }

  lemma IntegerHeaderParses(n: int)
    ensures ParseHeader(":" + PrintInt(n)) == Whole(Integer(n))
  {
    SignedOfPrint(n);
    assert (":" + PrintInt(n))[1..] == PrintInt(n);
  }

  lemma HeaderParses(r: Response, json: Json)
    requires Speakable(r)
    ensures ParseHeader(Header(r, json)) == Announced(r, json)
  {
    match r
    case Ok(None) => assert "+OK"[1..] == "OK";
    case Ok(Some(msg)) => OkHeaderParses(msg);
    case Error(code, message) => ErrorHeaderParses(code, message);
    case Bulk(data) => BulkHeaderParses(|data|);
    case Val(v) => BulkHeaderParses(|json(v)|);
    case Array(items) =>
      NaturalOfPrint(|items|);
      assert ("*" + Print(|items|))[1..] == Print(|items|);
    case Delta(version, delta) => DeltaHeaderParses(version, delta);
    case Integer(n) => IntegerHeaderParses(n);
    case Null => assert "$-1"[1..] == "-1";
    case Pong => assert "+PONG"[1..] == "PONG";
  }

  // ---------- decoding inverts encoding ----------

  lemma BulkBody(data: string, t: string)
    ensures var rest := data + CRLF + t;
            rest[..|data|] == data && rest[|data|..|data| + 2] == CRLF && rest[|data| + 2..] == t
  {}

  lemma {:induction false} DecodeOfEncode(r: Response, json: Json, t: string)
    requires Speakable(r)
    ensures Decode(Encode(r, json) + t) == Some((Shown(r, json), t))
    decreases r, 0
  {
    hide Header, ParseHeader, EncodeAll, DecodeMany;
    HeaderIsOneLine(r, json);
    HeaderParses(r, json);
    var payload :=
      match r
      case Bulk(data) => data + CRLF
      case Array(items) => EncodeAll(items, json)
      case Val(v) => json(v) + CRLF
      case _ => "";
    LineIs(Header(r, json), payload + t);
    assert Encode(r, json) + t == Header(r, json) + CRLF + (payload + t);
    match r
    case Bulk(data) => BulkBody(data, t);
    case Val(v) => BulkBody(json(v), t);
    case Array(items) =>
      DecodeManyOfEncode(items, json, t);
      ShownAllIs(items, json);
    case _ => assert payload + t == t;
  }

  lemma {:induction false} DecodeManyOfEncode(items: seq<Response>, json: Json, t: string)
    requires forall i :: 0 <= i < |items| ==> Speakable(items[i])
    ensures DecodeMany(EncodeAll(items, json) + t, |items|) == Some((ShownAll(items, json), t))
    decreases items, 1
  {
    hide Encode, Decode;
    if items == [] {
      assert "" + t == t;
    } else {
      var rest := EncodeAll(items[1..], json) + t;
      DecodeOfEncode(items[0], json, rest);
      DecodeManyOfEncode(items[1..], json, t);
      assert EncodeAll(items, json) + t == Encode(items[0], json) + rest;
    }
  }

  // ---------- only encodings decode ----------

  /** No value left to render: what a receiver can have. */
  predicate Plain(r: Response) {
    match r
    case Val(_) => false
    case Array(items) => forall i :: 0 <= i < |items| ==> Plain(items[i])
    case _ => true
  }

  lemma StatusIs(text: string)
    requires Free(text, '\n')
    ensures match Status(text)
            case Whole(Ok(None)) => text == "OK"
            case Whole(Ok(Some(msg))) => text == "OK " + msg && Free(msg, '\n')
            case Whole(Pong) => text == "PONG"
            case Malformed => true
            case _ => false
  {
    if |text| >= 3 && text[..3] == "OK " {
      assert text == text[..3] + text[3..];
    }
  }

  lemma FailureIs(text: string)
    requires Free(text, '\n')
    ensures match Failure(text)
            case Whole(Error(code, message)) =>
              text == "ERR " + code + " " + message && Free(code, ' ') && Free(code, '\n') && Free(message, '\n')
            case Malformed => true
            case _ => false
  {
    if |text| >= 4 && text[..4] == "ERR " && Cut(text[4..], ' ').Some? {
      var (code, message) := Cut(text[4..], ' ').value;
      assert text == text[..4] + text[4..];
      assert text == "ERR " + code + " " + message;
      assert forall i :: 0 <= i < |code| ==> code[i] == text[4 + i];
      assert forall i :: 0 <= i < |message| ==> message[i] == text[4 + |code| + 1 + i];
    }
  }

  lemma UpdateIs(text: string)
    ensures match Update(text)
            case Whole(Delta(n, delta)) => text == Print(n) + " " + Base64.Encode(delta)
            case Malformed => true
            case _ => false
  {
    hide Print, Natural, Base64.Encode, Base64.Decode;
    match Cut(text, ' ')
    case Some((version, payload)) =>
      if Natural(version).Some? && Base64.Decode(payload).Some? {
        Base64.EncodeOfDecode(payload);
      }
    case None =>
  }

  lemma HeaderOfParsed(line: string, json: Json)
    requires Free(line, '\n')
    ensures match ParseHeader(line)
            case Whole(r) => !r.Array? && !r.Bulk? && !r.Val? && Speakable(r) && line == Header(r, json)
            case BulkOf(n) => line == "$" + Print(n)
            case ArrayOf(n) => line == "*" + Print(n)
            case Malformed => true
  {
    hide Print, Natural, Signed, Status, Failure, Update, Base64.Encode;
    if line != "" {
      var text := line[1..];
      assert line == [line[0]] + text;
      match line[0]
      case '+' => StatusIs(text);
      case '-' => FailureIs(text);
      case '#' => UpdateIs(text);
      case _ =>
    }
  }

  lemma EncodeOne(r: Response, json: Json)
    requires !r.Bulk? && !r.Array? && !r.Val?
    ensures Encode(r, json) == Header(r, json) + CRLF
  {}

  lemma EncodeBulkIs(data: string, json: Json)
    ensures Encode(Bulk(data), json) == "$" + Print(|data|) + CRLF + (data + CRLF)
  {}

  lemma EncodeArrayIs(items: seq<Response>, json: Json)
    ensures Encode(Array(items), json) == "*" + Print(|items|) + CRLF + EncodeAll(items, json)
  {}

  lemma {:induction false} EncodeOfDecode(s: string, json: Json)
    requires Decode(s).Some?
    ensures var (r, rest) := Decode(s).value;
            Plain(r) && Speakable(r) && s == Encode(r, json) + rest
    decreases |s|, 0
  {
    hide Header, ParseHeader, Encode, EncodeAll, DecodeMany, Line, Print;
    var (line, rest) := Line(s).value;
    HeaderOfParsed(line, json);
    match ParseHeader(line)
    case Whole(r) =>
      EncodeOne(r, json);
    case BulkOf(n) =>
      EncodeBulkIs(rest[..n], json);
      assert rest == rest[..n] + rest[n..n + 2] + rest[n + 2..];
      assert s == line + CRLF + (rest[..n] + CRLF) + rest[n + 2..];
    case ArrayOf(n) =>
      EncodeManyOfDecode(rest, n, json);
      var (items, after) := DecodeMany(rest, n).value;
      EncodeArrayIs(items, json);
      assert s == line + CRLF + EncodeAll(items, json) + after;
    case _ =>
  }

  lemma {:induction false} EncodeManyOfDecode(s: string, n: nat, json: Json)
    requires DecodeMany(s, n).Some?
    ensures var (items, rest) := DecodeMany(s, n).value;
            (forall i :: 0 <= i < |items| ==> Plain(items[i]) && Speakable(items[i])) &&
                s == EncodeAll(items, json) + rest
    decreases |s|, n + 1
  {
    hide Encode, Decode, Plain, Speakable;
    if n > 0 {
      EncodeOfDecode(s, json);
      var (item, rest) := Decode(s).value;
      EncodeManyOfDecode(rest, n - 1, json);
      var (items, after) := DecodeMany(rest, n - 1).value;
      assert ([item] + items)[1..] == items;
      assert s == Encode(item, json) + EncodeAll(items, json) + after;
    }
  }

  lemma {:induction false} ShownIsTheSameOnTheWire(r: Response, json: Json)
    ensures Plain(Shown(r, json)) && (Speakable(Shown(r, json)) <==> Speakable(r))
    ensures Plain(r) ==> Shown(r, json) == r
    decreases r
  {
    match r
    case Array(items) =>
      forall i | 0 <= i < |items|
        ensures Plain(Shown(items[i], json)) && (Speakable(Shown(items[i], json)) <==> Speakable(items[i])) &&
                (Plain(items[i]) ==> Shown(items[i], json) == items[i])
      {
        ShownIsTheSameOnTheWire(items[i], json);
      }
      var shown := Shown(r, json).items;
      assert |shown| == |items| && forall i :: 0 <= i < |items| ==> shown[i] == Shown(items[i], json);
      if Speakable(Shown(r, json)) {
        forall i | 0 <= i < |items| ensures Speakable(items[i]) {
          assert Speakable(shown[i]);
        }
      }
      if Plain(r) {
        assert shown == items;
      }
    case _ =>
  }

  // ---------- the theorems ----------

  predicate ComesBack(r: Response, json: Json, t: string) {
    Decode(Encode(r, json) + t) == Some((Shown(r, json), t))
  }

  /** A response decodes back to what it shows, whatever follows it on the
    * stream, exactly when its texts stay on one line and its error codes are one word. */
  lemma SelfDelimitingIff(r: Response, json: Json)
    ensures Speakable(r) <==> forall t :: ComesBack(r, json, t)
    ensures Speakable(r) <==> exists t :: ComesBack(r, json, t)
  {
    if Speakable(r) {
      forall t ensures ComesBack(r, json, t) {
        DecodeOfEncode(r, json, t);
      }
      assert ComesBack(r, json, "");
    }
    forall t | ComesBack(r, json, t) ensures Speakable(r) {
      EncodeOfDecode(Encode(r, json) + t, json);
      ShownIsTheSameOnTheWire(r, json);
    }
    if !Speakable(r) {
      assert !ComesBack(r, json, "");
    }
  }

  /** The decoder accepts exactly the encodings. */
  lemma DecodesIffEncoded(s: string, r: Response, rest: string, json: Json)
    ensures Decode(s) == Some((r, rest)) <==> Plain(r) && Speakable(r) && s == Encode(r, json) + rest
  {
    if Decode(s) == Some((r, rest)) {
      EncodeOfDecode(s, json);
    }
    if Plain(r) && Speakable(r) {
      DecodeOfEncode(r, json, rest);
      ShownIsTheSameOnTheWire(r, json);
    }
  }

  /** No encoding is a prefix of another's stream: two streams that start with
    * encoded responses agree only if the responses and the remainders do. */
  lemma EncodingIsInjective(a: Response, b: Response, s: string, t: string, json: Json)
    requires Speakable(a) && Speakable(b)
    requires Encode(a, json) + s == Encode(b, json) + t
    ensures Shown(a, json) == Shown(b, json) && s == t
  {
    DecodeOfEncode(a, json, s);
    DecodeOfEncode(b, json, t);
  }
}
