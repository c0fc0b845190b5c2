/**
 The MQTT 5 wire format of the sample broker: variable byte integers (section
 1.5.5 of MQTT Version 5.0), UTF-8 strings (section 1.5.4) and control packet
 frames (section 2.1). The functions say what is on the wire; the methods are the
 loops that produce and consume it.
 */
module MqttCodec {
  import opened Bytes
  import opened Wrappers

  datatype MqttError =
    | UnexpectedEof
    | LengthTooLong
    | LengthInvalid
    | Truncated(name: string)
    | InvalidUtf8(name: string)
    | InvalidData(message: string)

  // ---------------------------------------------------------------- variable byte integers

  const MAX_VARIABLE_INT: nat := 268_435_455

  function VarInt(value: nat): (r: bytes)
    ensures r != []
  {
    if value < 128 then [value] else [value % 128 + 128] + VarInt(value / 128)
  }

  /** The value of the first integer on `s` and the bytes it takes, reading at most `limit` bytes. */
  function ReadVarInt(s: bytes, limit: nat): (r: Option<(nat, nat)>)
    ensures r.Some? ==> 1 <= r.value.1 <= |s| && r.value.1 <= limit
  {
    if s == [] || limit == 0 then None
    else if s[0] < 128 then Some((s[0], 1))
    else match ReadVarInt(s[1..], limit - 1)
         case None => None
         case Some((high, size)) => Some((s[0] - 128 + 128 * high, size + 1))
  }

  /** 128 to the power `n`. */
  function Pow128(n: nat): (r: nat)
    ensures r > 0
  {
    if n == 0 then 1 else 128 * Pow128(n - 1)
  }

  lemma Pow128Values()
    ensures Pow128(1) == 128 && Pow128(2) == 16_384 && Pow128(3) == 2_097_152
    ensures Pow128(4) == MAX_VARIABLE_INT + 1
  {
  }

  lemma DividedBelow(value: nat, bound: nat)
    ensures value / 128 < bound <==> value < 128 * bound
  {
  }

  /** The first byte of a longer encoding says that more follow. */
  lemma VarIntSplits(value: nat, rest: bytes)
    requires value >= 128
    ensures var s := VarInt(value) + rest;
            && s[0] == value % 128 + 128 && s[0] - 128 + 128 * (value / 128) == value
            && s[1..] == VarInt(value / 128) + rest
            && |VarInt(value)| == |VarInt(value / 128)| + 1
  {
  }

  /**
   Reading back what was written, whatever follows: it succeeds if and only if
   the value is below `128^limit`, and then consumes exactly the encoding.
   */
  lemma {:induction false} VarIntRoundTrip(value: nat, limit: nat, rest: bytes)
    requires limit > 0
    ensures ReadVarInt(VarInt(value) + rest, limit)
         == if value < Pow128(limit) then Some((value, |VarInt(value)|)) else None
    ensures |VarInt(value)| <= limit <==> value < Pow128(limit)
  {
    if value < 128 {
      assert Pow128(limit) >= 128 * 1;
    } else {
      VarIntSplits(value, rest);
      if limit == 1 {
        Pow128Values();
      } else {
        VarIntRoundTrip(value / 128, limit - 1, rest);
        DividedBelow(value, Pow128(limit - 1));
      }
    }
  }

  /** No encoding of a value is shorter than the one the writer produces. */
  lemma {:induction false} VarIntIsShortest(s: bytes, limit: nat)
    requires ReadVarInt(s, limit).Some?
    ensures |VarInt(ReadVarInt(s, limit).value.0)| <= ReadVarInt(s, limit).value.1
    ensures ReadVarInt(s, limit).value.0 < Pow128(limit)
  {
    if s[0] >= 128 {
      VarIntIsShortest(s[1..], limit - 1);
      var high := ReadVarInt(s[1..], limit - 1).value.0;
      assert (s[0] - 128 + 128 * high) / 128 == high;
    } else {
      assert Pow128(limit) >= 128 * 1;
    }
  }

  /** The seven-bit digits of the first `n` bytes, each weighted with its power of 128. */
  function Weighted(s: bytes, n: nat): nat
    requires n <= |s|
  {
    if n == 0 then 0 else Weighted(s, n - 1) + (s[n - 1] % 128) * Pow128(n - 1)
  }

  lemma {:induction false} WeightedTail(s: bytes, n: nat)
    requires 0 < n <= |s|
    ensures Weighted(s, n) == s[0] % 128 + 128 * Weighted(s[1..], n - 1)
  {
    if n > 1 {
      WeightedTail(s, n - 1);
      var digit, power := s[n - 1] % 128, Pow128(n - 2);
      assert digit * (128 * power) == 128 * (digit * power);
    } else {
      assert Pow128(0) == 1;
    }
  }

  /** Section 1.5.5: digits are sent low end first, and each byte but the last has its top bit set. */
  lemma {:induction false} VarIntDigits(value: nat)
    ensures Weighted(VarInt(value), |VarInt(value)|) == value
    ensures forall i :: 0 <= i < |VarInt(value)| ==> (VarInt(value)[i] >= 128 <==> i < |VarInt(value)| - 1)
  {
    WeightedTail(VarInt(value), |VarInt(value)|);
    if value >= 128 {
      VarIntSplits(value, []);
      assert VarInt(value) + [] == VarInt(value) && VarInt(value / 128) + [] == VarInt(value / 128);
      VarIntDigits(value / 128);
    }
  }

  method EncodeVariableInt(value: nat) returns (encoded: bytes)
    ensures encoded == VarInt(value)
  {
    var left := value;
    encoded := [];
    while true
      invariant encoded + VarInt(left) == VarInt(value)
      decreases left
    {
      var b := left % 128;
      left := left / 128;
      if left > 0 {
        b := b + 128;
      }
      encoded := encoded + [b];
      if left == 0 {
        return;
      }
    }
  }

  method DecodeVariableInt(s: bytes) returns (r: Option<(nat, nat)>)
    ensures r == ReadVarInt(s, 4)
  {
    var multiplier: nat, value: nat, index: nat := 1, 0, 0;
    while index < |s| && index < 4
      invariant index <= |s| && index <= 4
      invariant multiplier == Pow128(index)
      invariant ReadVarInt(s, 4) == Resumed(value, multiplier, index, ReadVarInt(s[index..], 4 - index))
    {
      var b := s[index];
      assert s[index..][1..] == s[index + 1..];
      ResumedStep(value, multiplier, index, b, ReadVarInt(s[index + 1..], 3 - index));
      value := value + (b % 128) * multiplier;
      if b < 128 {
        return Some((value, index + 1));
      }
      multiplier := multiplier * 128;
      index := index + 1;
    }
    r := None;
  }

  /** The result of a decoder that has `value` from `index` bytes and continues with `tail`. */
  function Resumed(value: nat, multiplier: nat, index: nat, tail: Option<(nat, nat)>): Option<(nat, nat)> {
    match tail
    case None => None
    case Some((high, size)) => Some((value + multiplier * high, index + size))
  }

  lemma ResumedStep(value: nat, multiplier: nat, index: nat, b: byte, tail: Option<(nat, nat)>)
    ensures b < 128 ==>
              Resumed(value, multiplier, index, Some((b, 1))) == Some((value + (b % 128) * multiplier, index + 1))
    ensures b >= 128 && tail.Some? ==>
              (Resumed(value, multiplier, index, Some((b - 128 + 128 * tail.value.0, tail.value.1 + 1)))
            == Resumed(value + (b % 128) * multiplier, multiplier * 128, index + 1, tail))
  {
    if b >= 128 && tail.Some? {
      var high := tail.value.0;
      assert b % 128 == b - 128;
      Distribute(multiplier, b - 128, high);
    } else if b < 128 {
      assert b % 128 == b;
    }
  }

  lemma Distribute(m: nat, low: nat, high: nat)
    ensures m * (low + 128 * high) == low * m + (m * 128) * high
  {
    assert m * (128 * high) == (m * 128) * high;
  }

  // ---------------------------------------------------------------- strings

  predicate Continuation(b: byte) {
    0x80 <= b <= 0xBF
  }

  /** The length of the well-formed UTF-8 sequence that `s` starts with, or 0. */
  function Utf8Width(s: bytes): (n: nat)
    ensures n <= |s|
  {
    if s == [] then 0
    else if s[0] <= 0x7F then 1
    else if |s| < 2 || s[0] < 0xC2 || s[0] > 0xF4 then 0
    else if s[0] <= 0xDF then if Continuation(s[1]) then 2 else 0
    else if |s| < 3 || !Continuation(s[1]) || !Continuation(s[2]) then 0
    else if s[0] <= 0xEF then
      if (s[0] == 0xE0 && s[1] < 0xA0) || (s[0] == 0xED && s[1] > 0x9F) then 0 else 3
    else if |s| < 4 || !Continuation(s[3]) then 0
    else if (s[0] == 0xF0 && s[1] < 0x90) || (s[0] == 0xF4 && s[1] > 0x8F) then 0
    else 4
  }

  predicate ValidUtf8(s: bytes) {
    s == [] || (Utf8Width(s) > 0 && ValidUtf8(s[Utf8Width(s)..]))
  }

  // Section 3.9 of the Unicode Standard: the scalar values and their UTF-8 forms.

  type scalar = c: int | 0 <= c < 0xD800 || 0xE000 <= c <= 0x10FFFF

  function Utf8Of(c: scalar): (s: bytes)
    ensures s != []
  {
    if c < 0x80 then [c]
    else if c < 0x800 then [0xC0 + c / 64, 0x80 + c % 64]
    else if c < 0x1_0000 then [0xE0 + c / 4096, 0x80 + c / 64 % 64, 0x80 + c % 64]
    else [0xF0 + c / 262_144, 0x80 + c / 4096 % 64, 0x80 + c / 64 % 64, 0x80 + c % 64]
  }

  function Utf8OfAll(text: seq<scalar>): bytes {
    if text == [] then [] else Utf8Of(text[0]) + Utf8OfAll(text[1..])
  }

  lemma Utf8WidthOf(c: scalar, rest: bytes)
    ensures Utf8Width(Utf8Of(c) + rest) == |Utf8Of(c)|
  {
  }

  /** The four digits, of 64 each but the first, that the bytes of a scalar value carry. */
  lemma Digits(h: nat, a: nat, b: nat, d: nat)
    requires a < 64 && b < 64 && d < 64
    ensures var c := h * 262_144 + a * 4096 + b * 64 + d;
            c / 262_144 == h && c / 4096 == h * 64 + a && c / 4096 % 64 == a && c / 64 % 64 == b && c % 64 == d
  {
  }

  lemma TwoBytes(s: bytes) returns (c: scalar)
    requires Utf8Width(s) == 2
    ensures Utf8Of(c) == [s[0], s[1]]
  {
    c := (s[0] as int - 0xC0) * 64 + (s[1] as int - 0x80);
  }

  lemma ThreeBytes(s: bytes) returns (c: scalar)
    requires Utf8Width(s) == 3
    ensures Utf8Of(c) == [s[0], s[1], s[2]]
  {
    var h, a, b: int := s[0] as int - 0xE0, s[1] as int - 0x80, s[2] as int - 0x80;
    assert 0 <= h < 16 && 0 <= a < 64 && 0 <= b < 64;
    c := h * 4096 + a * 64 + b;
    assert c / 4096 == h && c / 64 % 64 == a && c % 64 == b;
  }

  lemma FourBytes(s: bytes) returns (c: scalar)
    requires Utf8Width(s) == 4
    ensures Utf8Of(c) == [s[0], s[1], s[2], s[3]]
  {
    var h, a, b, d: int := s[0] as int - 0xF0, s[1] as int - 0x80, s[2] as int - 0x80, s[3] as int - 0x80;
    assert 0 <= h <= 4 && 0 <= a < 64 && 0 <= b < 64 && 0 <= d < 64;
    assert (h == 0 ==> a >= 16) && (h == 4 ==> a < 16);
    hide Utf8Width;
    Digits(h, a, b, d);
    c := h * 262_144 + a * 4096 + b * 64 + d;
  }

  lemma ScalarAt(s: bytes) returns (c: scalar)
    requires Utf8Width(s) > 0
    ensures Utf8Of(c) == s[..Utf8Width(s)]
  {
    if Utf8Width(s) == 1 {
      c := s[0];
    } else if Utf8Width(s) == 2 {
      c := TwoBytes(s);
    } else if Utf8Width(s) == 3 {
      c := ThreeBytes(s);
    } else {
      c := FourBytes(s);
    }
  }

  /** What is accepted as UTF-8 is exactly what some text is encoded to. */
  lemma ValidUtf8Means(s: bytes)
    ensures ValidUtf8(s) <==> exists text :: Utf8OfAll(text) == s
  {
    if ValidUtf8(s) {
      var text := TextOf(s);
      assert Utf8OfAll(text) == s;
    }
    if exists text :: Utf8OfAll(text) == s {
      var text :| Utf8OfAll(text) == s;
      TextIsValid(text);
    }
  }

  lemma {:induction false} TextIsValid(text: seq<scalar>)
    ensures ValidUtf8(Utf8OfAll(text))
  {
    hide Utf8Of, Utf8Width;
    if text != [] {
      var first, rest := Utf8Of(text[0]), Utf8OfAll(text[1..]);
      TextIsValid(text[1..]);
      Utf8WidthOf(text[0], rest);
      assert (first + rest)[|first|..] == rest;
    }
  }

  lemma {:induction false} TextOf(s: bytes) returns (text: seq<scalar>)
    requires ValidUtf8(s)
    ensures Utf8OfAll(text) == s
    decreases |s|
  {
    hide Utf8Of, Utf8Width;
    text := [];
    if s != [] {
      var width := Utf8Width(s);
      var first := ScalarAt(s);
      var rest := TextOf(s[width..]);
      text := [first] + rest;
      assert text[1..] == rest && s == s[..width] + s[width..];
    }
  }

  type u16 = x: int | 0 <= x <= U16_MAX

  /** A string, as the bytes of its UTF-8 encoding, that a length-prefixed field can hold. */
  type field = s: bytes | ValidUtf8(s) && |s| <= U16_MAX

  function U16(value: u16): bytes {
    [value / 256, value % 256]
  }

  /** Two-byte integers are sent high end first, section 1.5.2. */
  lemma U16HighFirst(value: u16)
    ensures |U16(value)| == 2 && U16(value)[0] as int * 256 + U16(value)[1] as int == value
  {
  }

  function FromU16(high: byte, low: byte): u16 {
    high * 256 + low
  }

  function EncodeUtf8(value: field): bytes {
    U16(|value|) + value
  }

  /** The string at `offset` and the offset behind it. */
  function DecodeUtf8(s: bytes, offset: nat, name: string): (r: Result<(field, nat), MqttError>)
    ensures r.Success? ==> r.value.1 == offset + 2 + |r.value.0| <= |s|
  {
    if offset + 2 > |s| then Failure(Truncated(name))
    else
      var len := FromU16(s[offset], s[offset + 1]);
      if offset + 2 + len > |s| then Failure(Truncated(name))
      else
        var value := s[offset + 2..offset + 2 + len];
        if ValidUtf8(value) then Success((value, offset + 2 + len)) else Failure(InvalidUtf8(name))
  }

  lemma Utf8RoundTrip(before: bytes, value: field, after: bytes, name: string)
    ensures DecodeUtf8(before + EncodeUtf8(value) + after, |before|, name)
         == Success((value, |before| + |EncodeUtf8(value)|))
  {
    var s := before + EncodeUtf8(value) + after;
    assert s[|before| + 2..|before| + 2 + |value|] == value;
  }

  // ---------------------------------------------------------------- frames

  /** One control packet: a header byte, the length of the body, the body. */
  function Frame(header: byte, body: bytes): bytes {
    [header] + VarInt(|body|) + body
  }

  /** The bytes of the remaining-length field: up to and including the first below 0x80, at most four. */
  function LengthField(s: bytes, limit: nat): (r: Result<bytes, MqttError>)
    requires limit > 0
    ensures r.Success? ==> r.value <= s && 1 <= |r.value| <= limit
  {
    if s == [] then Failure(UnexpectedEof)
    else if s[0] < 128 then Success([s[0]])
    else if limit == 1 then Failure(LengthTooLong)
    else Prefixed([s[0]], LengthField(s[1..], limit - 1))
  }

  /** The next header and body and what is left; `None` at the end of the stream. */
  function ReadFrame(s: bytes): Result<(Option<(byte, bytes)>, bytes), MqttError> {
    if s == [] then Success((None, []))
    else
      var field :- LengthField(s[1..], 4);
      match ReadVarInt(field, 4)
      case None => Failure(LengthInvalid)
      case Some((length, _)) =>
        var start := 1 + |field|;
        if start + length > |s| then Failure(UnexpectedEof)
        else Success((Some((s[0], s[start..start + length])), s[start + length..]))
  }

  /** The length loop stops exactly where the decoder stops. */
  lemma {:induction false} LengthFieldDecodes(s: bytes, limit: nat)
    requires limit > 0
    ensures match LengthField(s, limit)
            case Success(field) =>
              ReadVarInt(s, limit) == ReadVarInt(field, limit) && ReadVarInt(field, limit).Some?
              && ReadVarInt(field, limit).value.1 == |field|
            case Failure(_) => ReadVarInt(s, limit) == None
  {
    if s != [] && s[0] >= 128 && limit > 1 {
      LengthFieldDecodes(s[1..], limit - 1);
      if LengthField(s[1..], limit - 1).Success? {
        var rest := LengthField(s[1..], limit - 1).value;
        assert ([s[0]] + rest)[1..] == rest;
      }
    }
  }

  /** So the reader's "remaining length is invalid" branch is dead. */
  lemma LengthNeverInvalid(s: bytes)
    ensures ReadFrame(s) != Failure(LengthInvalid)
  {
    if s != [] {
      LengthFieldDecodes(s[1..], 4);
      LengthFieldErrors(s[1..], 4);
    }
  }

  lemma {:induction false} LengthFieldErrors(s: bytes, limit: nat)
    requires limit > 0
    ensures LengthField(s, limit).Failure? ==>
              LengthField(s, limit).error == UnexpectedEof || LengthField(s, limit).error == LengthTooLong
  {
    if s != [] && limit > 1 {
      LengthFieldErrors(s[1..], limit - 1);
    }
  }

  /** The length field of a written frame is read back if and only if it fits `limit` bytes. */
  lemma {:induction false} LengthFieldOfVarInt(value: nat, limit: nat, rest: bytes)
    requires limit > 0
    ensures LengthField(VarInt(value) + rest, limit)
         == if value < Pow128(limit) then Success(VarInt(value)) else Failure(LengthTooLong)
  {
    if value < 128 {
      assert Pow128(limit) >= 128 * 1;
    } else {
      VarIntSplits(value, rest);
      if limit == 1 {
        Pow128Values();
      } else {
        LengthFieldOfVarInt(value / 128, limit - 1, rest);
        DividedBelow(value, Pow128(limit - 1));
      }
    }
  }

  /**
   A written frame is read back, whatever follows it, if and only if its body
   fits the four-byte length field.
   */
  lemma FrameRoundTrip(header: byte, body: bytes, rest: bytes)
    ensures ReadFrame(Frame(header, body) + rest)
         == if |body| <= MAX_VARIABLE_INT then Success((Some((header, body)), rest)) else Failure(LengthTooLong)
  {
    Pow128Values();
    var s := Frame(header, body) + rest;
    var length := VarInt(|body|);
    assert s[1..] == length + (body + rest);
    LengthFieldOfVarInt(|body|, 4, body + rest);
    if |body| <= MAX_VARIABLE_INT {
      VarIntRoundTrip(|body|, 4, []);
      assert length + [] == length;
      var start := 1 + |length|;
      assert s[start..start + |body|] == body;
      assert s[start + |body|..] == rest;
    }
  }

  lemma {:induction false} LengthFieldCut(value: nat, limit: nat, n: nat)
    requires limit > 0 && value < Pow128(limit) && n < |VarInt(value)|
    ensures LengthField(VarInt(value)[..n], limit) == Failure(UnexpectedEof)
  {
    if n > 0 {
      VarIntSplits(value, []);
      assert VarInt(value) + [] == VarInt(value) && VarInt(value / 128) + [] == VarInt(value / 128);
      assert VarInt(value)[..n][1..] == VarInt(value / 128)[..n - 1];
      if limit == 1 {
        Pow128Values();
      } else {
        DividedBelow(value, Pow128(limit - 1));
        LengthFieldCut(value / 128, limit - 1, n - 1);
      }
    }
  }

  /** A frame that is cut off anywhere behind its first byte is an error, not the end of the stream. */
  lemma CutFrame(header: byte, body: bytes, n: nat)
    requires |body| <= MAX_VARIABLE_INT && 0 < n < |Frame(header, body)|
    ensures ReadFrame(Frame(header, body)[..n]) == Failure(UnexpectedEof)
  {
    Pow128Values();
    var s, length := Frame(header, body)[..n], VarInt(|body|);
    hide VarInt, ReadVarInt, Pow128;
    assert s == [header] + (length + body)[..n - 1];
    if n <= |length| {
      LengthFieldCut(|body|, 4, n - 1);
      assert s[1..] == length[..n - 1];
    } else {
      var part := body[..n - 1 - |length|];
      assert s[1..] == length + part;
      LengthFieldOfVarInt(|body|, 4, part);
      VarIntRoundTrip(|body|, 4, []);
      assert length + [] == length;
    }
  }

  /** A body that was read is within the bound, and reading a frame consumes at least two bytes. */
  lemma ReadFrameBounds(s: bytes)
    ensures ReadFrame(s).Success? && ReadFrame(s).value.0.Some? ==>
              && |ReadFrame(s).value.0.value.1| <= MAX_VARIABLE_INT
              && |ReadFrame(s).value.1| < |s|
  {
    if s != [] && LengthField(s[1..], 4).Success? {
      LengthFieldDecodes(s[1..], 4);
      VarIntIsShortest(LengthField(s[1..], 4).value, 4);
      Pow128Values();
    }
  }

  /** All frames of a stream. */
  function ReadFrames(s: bytes): Result<seq<(byte, bytes)>, MqttError>
    decreases |s|
  {
    var (first, rest) :- ReadFrame(s);
    if first == None then Success([])
    else
      ReadFrameBounds(s);
      var frames :- ReadFrames(rest);
      Success([first.value] + frames)
  }

  function Frames(frames: seq<(byte, bytes)>): bytes {
    if frames == [] then [] else Frame(frames[0].0, frames[0].1) + Frames(frames[1..])
  }

  /** Any list of frames that fit is read back from its concatenation, to the last byte. */
  lemma {:induction false} FramesRoundTrip(frames: seq<(byte, bytes)>)
    requires forall i :: 0 <= i < |frames| ==> |frames[i].1| <= MAX_VARIABLE_INT
    ensures ReadFrames(Frames(frames)) == Success(frames)
  {
    if frames != [] {
      FrameRoundTrip(frames[0].0, frames[0].1, Frames(frames[1..]));
      FramesRoundTrip(frames[1..]);
      assert [frames[0]] + frames[1..] == frames;
    }
  }

  // ---------------------------------------------------------------- streams in place

  /** A connection: the bytes still to come, and the bytes sent. */
  class ByteStream {
    var incoming: bytes
    var sent: bytes

    constructor (incoming: bytes)
      ensures this.incoming == incoming && sent == []
    {
      this.incoming := incoming;
      sent := [];
    }

    method ReadExact(n: nat) returns (r: Result<bytes, MqttError>)
      modifies this`incoming
      ensures if n <= |old(incoming)|
              then r == Success(old(incoming)[..n]) && incoming == old(incoming)[n..]
              else r == Failure(UnexpectedEof) && incoming == []
    {
      if n > |incoming| {
        incoming := [];
        return Failure(UnexpectedEof);
      }
      r := Success(incoming[..n]);
      incoming := incoming[n..];
    }

    method WriteAll(s: bytes)
      modifies this`sent
      ensures sent == old(sent) + s
    {
      sent := sent + s;
    }
  }

  lemma LengthFieldStep(s: bytes, limit: nat)
    requires limit > 0
    ensures LengthField(s, limit) == if s == [] then Failure(UnexpectedEof)
                                     else if s[0] < 128 then Success([s[0]])
                                     else if limit == 1 then Failure(LengthTooLong)
                                     else Prefixed([s[0]], LengthField(s[1..], limit - 1))
  {
  }

  method ReadLengthField(stream: ByteStream) returns (r: Result<bytes, MqttError>)
    modifies stream`incoming
    ensures r == LengthField(old(stream.incoming), 4)
    ensures r.Success? ==> stream.incoming == old(stream.incoming)[|r.value|..]
  {
    hide LengthField;
    ghost var s := stream.incoming;
    var encoded: bytes := [];
    PrefixedNil(LengthField(s, 4));
    while true
      invariant |encoded| <= 3 && |encoded| <= |s| && stream.incoming == s[|encoded|..]
      invariant LengthField(s, 4) == Prefixed(encoded, LengthField(stream.incoming, 4 - |encoded|))
      decreases 4 - |encoded|
    {
      ghost var before, done := stream.incoming, encoded;
      LengthFieldStep(before, 4 - |done|);
      var b :- stream.ReadExact(1);
      assert b == [before[0]];
      encoded := encoded + b;
      if b[0] < 128 {
        return Success(encoded);
      }
      if |encoded| >= 4 {
        return Failure(LengthTooLong);
      }
      PrefixedSnoc(done, before[0], LengthField(before[1..], 3 - |done|));
    }
  }

  method ReadFrameFrom(stream: ByteStream) returns (r: Result<Option<(byte, bytes)>, MqttError>)
    modifies stream`incoming
    ensures match ReadFrame(old(stream.incoming))
            case Success((frame, rest)) => r == Success(frame) && stream.incoming == rest
            case Failure(error) => r == Failure(error)
  {
    ghost var s := stream.incoming;
    var first := stream.ReadExact(1);
    if first.Failure? {
      return Success(None);
    }
    var encoded :- ReadLengthField(stream);
    assert stream.incoming == s[1 + |encoded|..];
    var decoded := DecodeVariableInt(encoded);
    if decoded == None {
      return Failure(LengthInvalid);
    }
    ghost var start, end := 1 + |encoded|, 1 + |encoded| + decoded.value.0;
    var body :- stream.ReadExact(decoded.value.0);
    assert body == s[start..end] && stream.incoming == s[end..];
    r := Success(Some((first.value[0], body)));
  }
}
